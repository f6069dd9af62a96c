/**
 `voteReview` and `deleteVote` as database transactions that interleave statement by statement.

 Isolation is READ COMMITTED: a statement sees the committed tables and its own transaction's
 pending writes. An UPDATE or DELETE takes the row it writes until the transaction ends and waits
 while another transaction has it. The advisory lock of a (user, review) pair never waits: whoever
 fails to get it returns, and hash collisions make unrelated pairs compete for the same lock.
 */
module VoteTransactions {
  import opened Prelude
  import opened Ledger

  type TxId = nat

  datatype Request = Cast(action: VoteAction) | Withdraw

  datatype Found = Found(id: Id, vote: Vote)

  /** The next statement of a transaction. */
  datatype Pc =
    | Exists
    | TryLock
    | Find
    | DeleteOld(seen: Found)
    | Decrement(seen: Found)
    | Insert(action: VoteAction)
    | Increment(action: VoteAction)
    | Ready

  /** `deleted`, `inserted` and `row` are the pending writes; a pending review row is also a row lock. */
  datatype Tx = Tx(request: Request, user: Id, review: Id, pc: Pc, holdsLock: bool,
                   previous: Option<Found>, deleted: set<Id>, inserted: Option<Found>, row: Option<Review>)

  datatype Failure = ReviewNotFound | CheckViolated | ForeignKeyViolated | UniqueViolated

  /** A change to the committed tables, in one step. */
  datatype Op =
    | CastOp(user: Id, review: Id, action: VoteAction, newId: Id)
    | WithdrawOp(user: Id, review: Id)
    | DeleteUserOp(user: Id)
    | RefreshOp
    | AddUserOp(user: Id)
    | AddItemOp(id: Id, row: Item)
    | AddReviewOp(id: Id, user: Id, item: Id)

  /** `log` lists the changes in the order they were committed. */
  datatype System = System(db: Tables, open: map<TxId, Tx>, log: seq<Op>)

  /** `pick` is the database's choice: the row a SELECT finds, or the id a new row gets. */
  datatype Event =
    | Begin(t: TxId, request: Request, user: Id, review: Id)
    | Advance(t: TxId, pick: Id)
    | Commit(t: TxId)
    | Rollback(t: TxId)
    | Apply(op: Op)

  // -------------------------------------------------------------- statements

  function Afterwards(request: Request): Pc {
    match request
    case Cast(a) => Insert(a)
    case Withdraw => Ready
  }

  ghost function Statement(db: Tables, tx: Tx, lockFree: bool, pick: Id): Result<Tx, Failure> {
    match tx.pc
    case Exists =>
      if tx.review in db.reviews then Ok(tx.(pc := TryLock)) else Err(ReviewNotFound)
    case TryLock =>
      if lockFree then Ok(tx.(pc := Find, holdsLock := true)) else Ok(tx.(pc := Ready))
    case Find =>
      if pick in BallotsOf(db.votes, tx.user, tx.review) then
        var seen := Found(pick, db.votes[pick]);
        if tx.request == Cast(seen.vote.action)
        then Ok(tx.(pc := Ready, previous := Some(seen)))
        else Ok(tx.(pc := DeleteOld(seen), previous := Some(seen)))
      else Ok(tx.(pc := Afterwards(tx.request)))
    case DeleteOld(seen) =>
      Ok(tx.(pc := Decrement(seen), deleted := {seen.id} * db.votes.Keys))
    case Decrement(seen) =>
      if tx.review !in db.reviews then Ok(tx.(pc := Afterwards(tx.request)))
      else
        var row := Bump(db.reviews[tx.review], seen.vote.action, -1);
        if Counter(row, seen.vote.action) < 0 then Err(CheckViolated)
        else Ok(tx.(pc := Afterwards(tx.request), row := Some(row)))
    case Insert(action) =>
      if tx.user !in db.users || tx.review !in db.reviews then Err(ForeignKeyViolated)
      else if BallotsOf(db.votes, tx.user, tx.review) - tx.deleted != {} then Err(UniqueViolated)
      else Ok(tx.(pc := Increment(action), inserted := Some(Found(pick, Vote(action, tx.user, tx.review)))))
    case Increment(action) =>
      if tx.review !in db.reviews then Ok(tx.(pc := Ready))
      else
        var row := if tx.row.Some? then tx.row.value else db.reviews[tx.review];
        Ok(tx.(pc := Ready, row := Some(Bump(row, action, 1))))
    case Ready => Ok(tx)
  }

  function LockKey(hash: string -> int, tx: Tx): int {
    hash(tx.user + "-" + tx.review)
  }

  ghost predicate LockFree(hash: string -> int, s: System, t: TxId)
    requires t in s.open
  {
    forall o :: o in s.open && o != t && s.open[o].holdsLock ==> LockKey(hash, s.open[o]) != LockKey(hash, s.open[t])
  }

  /** Transaction `o` has the row that the next statement of `t` is about to write. */
  ghost predicate HeldUpBy(s: System, t: TxId, o: TxId)
    requires t in s.open && o in s.open
  {
    var tx := s.open[t];
    match tx.pc
    case DeleteOld(seen) => seen.id in s.open[o].deleted
    case Decrement(_) => s.open[o].row.Some? && s.open[o].review == tx.review
    case Increment(_) => s.open[o].row.Some? && s.open[o].review == tx.review
    case Insert(_) => s.open[o].inserted.Some? && s.open[o].inserted.value.vote.createdBy == tx.user
      && s.open[o].inserted.value.vote.relatedReview == tx.review
    case _ => false
  }

  /** The next statement of `t` has to wait. */
  ghost predicate Waits(s: System, t: TxId)
    requires t in s.open
  {
    exists o :: o in s.open && o != t && HeldUpBy(s, t, o)
  }

  /** A generated id that no row has and no open transaction has seen. */
  ghost predicate NewVoteId(s: System, id: Id) {
    && id !in s.db.votes
    && forall o :: o in s.open ==>
      && (s.open[o].inserted.Some? ==> s.open[o].inserted.value.id != id)
      && (s.open[o].previous.Some? ==> s.open[o].previous.value.id != id)
  }

  ghost predicate GoodPick(s: System, tx: Tx, pick: Id) {
    && (tx.pc.Find? && BallotsOf(s.db.votes, tx.user, tx.review) != {} ==>
      pick in BallotsOf(s.db.votes, tx.user, tx.review))
    && (tx.pc.Insert? ==> NewVoteId(s, pick))
  }

  function Merge(db: Tables, tx: Tx): Tables {
    var kept := db.votes - tx.deleted;
    db.(votes := if tx.inserted.Some? then kept[tx.inserted.value.id := tx.inserted.value.vote] else kept,
        reviews := if tx.row.Some? then db.reviews[tx.review := tx.row.value] else db.reviews)
  }

  // ------------------------------------------------------------------ runs

  ghost function ApplyOp(db: Tables, op: Op): Tables {
    match op
    case CastOp(user, review, action, newId) => CastVote(db, user, review, action, newId)
    case WithdrawOp(user, review) => WithdrawVote(db, user, review)
    case DeleteUserOp(user) => DeleteUser(db, user)
    case RefreshOp => RefreshVotes(db)
    case AddUserOp(user) => db.(users := db.users + {user})
    case AddItemOp(id, item) => db.(items := db.items[id := item])
    case AddReviewOp(id, user, item) =>
      (match CreateReview(db, id, user, item) case Ok(db') => db' case Err(_) => db)
  }

  /** The change a lock winner makes; the id of its new row is the one its INSERT got. */
  ghost function OpOf(tx: Tx): Op {
    match tx.request
    case Withdraw => WithdrawOp(tx.user, tx.review)
    case Cast(action) =>
      var newId := if tx.inserted.Some? then tx.inserted.value.id else "";
      CastOp(tx.user, tx.review, action, newId)
  }

  /**
   Deleting a user is one step. It waits for the review rows it decrements and for every row it
   cascades to; it runs while the user has no voting transaction of their own open.
   */
  ghost predicate DeletionFree(s: System, user: Id) {
    forall t :: t in s.open ==>
      && s.open[t].user != user
      && (s.open[t].row.Some? ==> s.open[t].review !in VotedBy(s.db.votes, user, Up) + VotedBy(s.db.votes, user, Down))
      && (s.open[t].review in GoneReviews(s.db, user) ==>
        s.open[t].row.None? && s.open[t].deleted == {} && s.open[t].inserted.None?)
  }

  ghost predicate OpEnabled(s: System, op: Op) {
    match op
    case CastOp(_, _, _, _) => false
    case WithdrawOp(_, _) => false
    case DeleteUserOp(user) => DeletionFree(s, user)
    case RefreshOp => forall t :: t in s.open && s.open[t].row.Some? && s.open[t].review in s.db.reviews ==>
      !Drifted(s.db, s.open[t].review)
    case AddUserOp(user) => user !in s.db.users
    case AddItemOp(id, item) => id !in s.db.items && item.createdBy in s.db.users
    case AddReviewOp(id, user, item) =>
      user in s.db.users && id !in s.db.reviews && forall t :: t in s.open ==> s.open[t].review != id
  }

  ghost predicate Enabled(s: System, e: Event) {
    match e
    case Begin(t, request, user, review) => t !in s.open
    case Advance(t, pick) => t in s.open && !s.open[t].pc.Ready? && !Waits(s, t) && GoodPick(s, s.open[t], pick)
    case Commit(t) => t in s.open && s.open[t].pc.Ready?
    case Rollback(t) => t in s.open
    case Apply(op) => OpEnabled(s, op)
  }

  ghost function Next(hash: string -> int, s: System, e: Event): System
    requires Enabled(s, e)
  {
    match e
    case Begin(t, request, user, review) =>
      s.(open := s.open[t := Tx(request, user, review, Exists, false, None, {}, None, None)])
    case Advance(t, pick) =>
      (match Statement(s.db, s.open[t], LockFree(hash, s, t), pick)
       case Ok(tx) => s.(open := s.open[t := tx])
       case Err(_) => s.(open := s.open - {t}))
    case Commit(t) =>
      System(Merge(s.db, s.open[t]), s.open - {t}, if s.open[t].holdsLock then s.log + [OpOf(s.open[t])] else s.log)
    case Rollback(t) => s.(open := s.open - {t})
    case Apply(op) => s.(db := ApplyOp(s.db, op), log := s.log + [op])
  }

  ghost predicate Legal(hash: string -> int, s: System, es: seq<Event>)
    decreases |es|
  {
    es == [] || (Enabled(s, es[0]) && Legal(hash, Next(hash, s, es[0]), es[1..]))
  }

  ghost function Run(hash: string -> int, s: System, es: seq<Event>): System
    requires Legal(hash, s, es)
    decreases |es|
  {
    if es == [] then s else Run(hash, Next(hash, s, es[0]), es[1..])
  }

  ghost function Start(db: Tables): System {
    System(db, map[], [])
  }

  /** The logged changes applied one at a time, in commit order. */
  ghost function Replay(db: Tables, log: seq<Op>): Tables {
    if log == [] then db else ApplyOp(Replay(db, log[..|log| - 1]), log[|log| - 1])
  }

  // ------------------------------------------------------------- invariant

  ghost predicate NoWrites(tx: Tx) {
    tx.deleted == {} && tx.inserted.None? && tx.row.None?
  }

  /** The pair's only committed ballot is the one the transaction read. */
  ghost predicate StillThere(db: Tables, tx: Tx, seen: Found) {
    BallotsOf(db.votes, tx.user, tx.review) == {seen.id} && db.votes[seen.id] == seen.vote
  }

  ghost predicate ToClear(tx: Tx, seen: Found) {
    tx.previous == Some(seen) && tx.request != Cast(seen.vote.action)
  }

  /** The old ballot, if any, is deleted in this transaction and still committed outside it. */
  ghost predicate Cleared(db: Tables, tx: Tx) {
    match tx.previous
    case None =>
      tx.deleted == {} && (tx.review in db.reviews ==> BallotsOf(db.votes, tx.user, tx.review) == {})
    case Some(seen) =>
      && ToClear(tx, seen)
      && (if tx.review in db.reviews then tx.deleted == {seen.id} && StillThere(db, tx, seen) else tx.deleted == {})
  }

  function RowCleared(row: Review, previous: Option<Found>): Review {
    if previous.Some? then Bump(row, previous.value.vote.action, -1) else row
  }

  ghost predicate Wrote(db: Tables, tx: Tx, action: VoteAction) {
    && tx.review in db.reviews
    && Cleared(db, tx)
    && tx.inserted.Some? && tx.inserted.value.id !in db.votes
      && tx.inserted.value.vote == Vote(action, tx.user, tx.review)
  }

  ghost predicate RowAfterClear(db: Tables, tx: Tx) {
    tx.row == if tx.previous.Some? && tx.review in db.reviews
              then Some(RowCleared(db.reviews[tx.review], tx.previous)) else None
  }

  /** A request may outlive the account it was authenticated for; it then finds no ballot and inserts none. */
  ghost predicate AccountOk(db: Tables, tx: Tx) {
    tx.user in db.users || (tx.previous.None? && tx.inserted.None?)
  }

  ghost predicate WroteAll(db: Tables, tx: Tx, action: VoteAction) {
    && Wrote(db, tx, action)
    && tx.row == Some(Bump(RowCleared(db.reviews[tx.review], tx.previous), action, 1))
  }

  ghost predicate TxOk(db: Tables, tx: Tx) {
    && AccountOk(db, tx)
    && match tx.pc
       case Exists => !tx.holdsLock && NoWrites(tx) && tx.previous.None?
       case TryLock => !tx.holdsLock && NoWrites(tx) && tx.previous.None?
       case Find => tx.holdsLock && NoWrites(tx) && tx.previous.None?
       case DeleteOld(seen) =>
         && tx.holdsLock && NoWrites(tx) && ToClear(tx, seen)
         && (if tx.review in db.reviews then StillThere(db, tx, seen) else seen.id !in db.votes)
       case Decrement(seen) =>
         tx.holdsLock && tx.inserted.None? && tx.row.None? && tx.previous == Some(seen) && Cleared(db, tx)
       case Insert(action) =>
         tx.holdsLock && tx.request == Cast(action) && tx.inserted.None? && Cleared(db, tx) && RowAfterClear(db, tx)
       case Increment(action) =>
         tx.holdsLock && tx.request == Cast(action) && Wrote(db, tx, action) && RowAfterClear(db, tx)
       case Ready =>
         if !tx.holdsLock then NoWrites(tx)
         else match tx.request
           case Withdraw => tx.inserted.None? && Cleared(db, tx) && RowAfterClear(db, tx)
           case Cast(action) =>
             if tx.previous.Some? && tx.previous.value.vote.action == action
             then NoWrites(tx) && (tx.review in db.reviews ==> StillThere(db, tx, tx.previous.value))
             else WroteAll(db, tx, action)
  }

  /** Ids are never shared: a row one transaction inserts is neither inserted nor read by another. */
  predicate Apart(tx: Tx, other: Tx) {
    tx.inserted.Some? ==>
      && (other.inserted.Some? ==> other.inserted.value.id != tx.inserted.value.id)
      && (other.previous.Some? ==> other.previous.value.id != tx.inserted.value.id)
  }

  /** Two open transactions never share a lock key, a locked review row or the id of a new vote. */
  ghost predicate Separate(hash: string -> int, tx: Tx, other: Tx) {
    && (tx.holdsLock && other.holdsLock ==> LockKey(hash, tx) != LockKey(hash, other))
    && (tx.row.Some? && other.row.Some? ==> tx.review != other.review)
    && Apart(tx, other) && Apart(other, tx)
  }

  ghost predicate Exclusive(hash: string -> int, s: System) {
    forall t, o :: t in s.open && o in s.open && t != o ==> Separate(hash, s.open[t], s.open[o])
  }

  ghost predicate SystemOk(hash: string -> int, s: System) {
    && Sound(s.db)
    && (forall t :: t in s.open ==> TxOk(s.db, s.open[t]))
    && Exclusive(hash, s)
  }

  // ----------------------------------------------------- what one step keeps

  lemma OnlyBallot(db: Tables, user: Id, review: Id, v: Id)
    requires UniqueBallots(db.votes) && v in BallotsOf(db.votes, user, review)
    ensures BallotsOf(db.votes, user, review) == {v}
  {
  }

  lemma Counted(db: Tables, v: Id)
    requires Sound(db) && v in db.votes
    ensures db.votes[v].relatedReview in db.reviews
    ensures Counter(db.reviews[db.votes[v].relatedReview], db.votes[v].action) >= 1
  {
    var r, a := db.votes[v].relatedReview, db.votes[v].action;
    assert ExactRow(db, r);
    assert v in Ballots(db.votes, r, a);
  }

  /**
   A statement keeps its transaction consistent with the committed tables. It can only fail for a
   review or an account that does not exist: the CHECK on the counters and the unique key never
   abort it. The try-lock gets a free lock, and whoever does not get it is done.
   */
  lemma StatementKeeps(s: System, t: TxId, lockFree: bool, pick: Id)
    requires Sound(s.db) && t in s.open && TxOk(s.db, s.open[t]) && GoodPick(s, s.open[t], pick)
    ensures var r := Statement(s.db, s.open[t], lockFree, pick);
      && (r.Ok? ==> TxOk(s.db, r.value))
      && (r.Err? ==>
            || (r.error == ReviewNotFound && s.open[t].review !in s.db.reviews)
            || (r.error == ForeignKeyViolated && !(s.open[t].review in s.db.reviews && s.open[t].user in s.db.users)))
      && (s.open[t].pc.TryLock? ==>
            r.Ok? && r.value.holdsLock == lockFree && (if lockFree then r.value.pc.Find? else r.value.pc.Ready?))
  {
    var db, tx := s.db, s.open[t];
    match tx.pc
    case Exists =>
    case TryLock =>
    case Find =>
      var mine := BallotsOf(db.votes, tx.user, tx.review);
      if pick in mine {
        OnlyBallot(db, tx.user, tx.review, pick);
      }
    case DeleteOld(seen) =>
      if tx.review !in db.reviews {
      } else {
        assert seen.id in BallotsOf(db.votes, tx.user, tx.review);
      }
    case Decrement(seen) =>
      if tx.review in db.reviews {
        assert seen.id in BallotsOf(db.votes, tx.user, tx.review);
        Counted(db, seen.id);
      }
    case Insert(action) =>
      if tx.review in db.reviews {
        assert BallotsOf(db.votes, tx.user, tx.review) - tx.deleted == {};
      }
    case Increment(action) =>
    case Ready =>
  }

  /** A transaction stays consistent when a change to the tables leaves its pair and its locked row alone. */
  lemma Unaffected(db: Tables, db': Tables, tx: Tx)
    requires TxOk(db, tx) && (tx.user in db.users ==> tx.user in db'.users)
    requires tx.review in db.reviews <==> tx.review in db'.reviews
    requires BallotsOf(db'.votes, tx.user, tx.review) == BallotsOf(db.votes, tx.user, tx.review)
    requires forall v :: v in BallotsOf(db.votes, tx.user, tx.review) ==> db'.votes[v] == db.votes[v]
    requires tx.row.Some? && tx.review in db.reviews ==> db'.reviews[tx.review] == db.reviews[tx.review]
    requires tx.inserted.Some? ==> tx.inserted.value.id !in db'.votes
    requires tx.previous.Some? && tx.previous.value.id in db'.votes ==> tx.previous.value.id in db.votes
    ensures TxOk(db', tx)
  {
  }

  /** A transaction that holds no row of a review survives the review's removal. */
  lemma ReviewGone(db: Tables, db': Tables, tx: Tx)
    requires TxOk(db, tx) && (tx.user in db.users ==> tx.user in db'.users) && NoWrites(tx)
    requires tx.review in db.reviews && tx.review !in db'.reviews
    requires forall v :: v in db.votes && db.votes[v].relatedReview == tx.review ==> v !in db'.votes
    ensures TxOk(db', tx)
  {
    if tx.previous.Some? && tx.pc.DeleteOld? {
      assert tx.previous.value.id in BallotsOf(db.votes, tx.user, tx.review);
    }
  }

  // ------------------------------------------------------------ the commit

  /** Committing a lock winner changes the tables exactly as the whole request would in one step. */
  lemma CommitIsOneStep(db: Tables, tx: Tx)
    requires Sound(db) && TxOk(db, tx) && tx.pc.Ready? && tx.holdsLock
    ensures Merge(db, tx) == ApplyOp(db, OpOf(tx))
    ensures Sound(Merge(db, tx))
  {
    var mine := BallotsOf(db.votes, tx.user, tx.review);
    match tx.request
    case Withdraw =>
      WithdrawVoteSound(db, tx.user, tx.review);
      if tx.review in db.reviews && tx.previous.Some? {
        var seen := tx.previous.value;
        assert seen.id in mine;
        assert WithdrawVote(db, tx.user, tx.review) == RemoveVote(db, seen.id);
        assert Merge(db, tx).votes == db.votes - {seen.id};
      } else {
        assert Merge(db, tx).votes == db.votes;
      }
    case Cast(action) =>
      if tx.previous.Some? && tx.previous.value.vote.action == action {
        assert Merge(db, tx).votes == db.votes;
        if tx.review in db.reviews {
          assert tx.previous.value.id in mine;
          assert HasVoted(db, tx.user, tx.review, action);
        }
      } else {
        WinnerCasts(db, tx, action);
      }
  }

  /** The pending writes of a finished vote, as removing the old ballot and adding the new one. */
  lemma WritesAsSteps(db: Tables, tx: Tx, action: VoteAction)
    requires Sound(db) && Wrote(db, tx, action)
    requires tx.row == Some(Bump(RowCleared(db.reviews[tx.review], tx.previous), action, 1))
    ensures tx.previous.Some? ==> tx.previous.value.id in BallotsOf(db.votes, tx.user, tx.review)
    ensures Merge(db, tx)
      == AddVote(if tx.previous.Some? then RemoveVote(db, tx.previous.value.id) else db,
                 tx.inserted.value.id, Vote(action, tx.user, tx.review))
  {
    if tx.previous.None? {
      assert db.votes - tx.deleted == db.votes;
    } else {
      assert tx.previous.value.id in BallotsOf(db.votes, tx.user, tx.review);
    }
  }

  lemma WinnerCasts(db: Tables, tx: Tx, action: VoteAction)
    requires Sound(db) && AccountOk(db, tx) && Wrote(db, tx, action)
    requires tx.request == Cast(action)
    requires tx.previous.Some? ==> tx.previous.value.vote.action != action
    requires tx.row == Some(Bump(RowCleared(db.reviews[tx.review], tx.previous), action, 1))
    ensures Merge(db, tx) == ApplyOp(db, OpOf(tx))
    ensures Sound(Merge(db, tx))
  {
    CastVoteSound(db, tx.user, tx.review, action, tx.inserted.value.id);
    WritesAsSteps(db, tx, action);
    assert !HasVoted(db, tx.user, tx.review, action);
    var cleared := WithdrawVote(db, tx.user, tx.review);
    assert cleared == if tx.previous.Some? then RemoveVote(db, tx.previous.value.id) else db;
  }

  lemma LoserChangesNothing(db: Tables, tx: Tx)
    requires TxOk(db, tx) && !tx.holdsLock
    ensures Merge(db, tx) == db
  {
    assert Merge(db, tx).votes == db.votes;
  }

  // ------------------------------------------------------- steps keep it all

  lemma StatementFrame(s: System, t: TxId, lockFree: bool, pick: Id)
    requires Sound(s.db) && t in s.open && TxOk(s.db, s.open[t]) && Statement(s.db, s.open[t], lockFree, pick).Ok?
    ensures var tx, tx' := s.open[t], Statement(s.db, s.open[t], lockFree, pick).value;
      && tx'.user == tx.user && tx'.review == tx.review
      && (tx'.holdsLock && !tx.holdsLock ==> tx.pc.TryLock? && lockFree)
      && (tx'.row.Some? && tx.row.None? ==> tx.pc.Decrement? || tx.pc.Increment?)
      && (tx'.inserted != tx.inserted ==> tx.pc.Insert? && tx'.inserted.Some? && tx'.inserted.value.id == pick)
      && (tx'.previous != tx.previous ==> tx.pc.Find? && tx'.previous.Some? && tx'.previous.value.id in s.db.votes)
  {
  }

  lemma StaysSeparate(hash: string -> int, s: System, t: TxId, o: TxId, pick: Id)
    requires SystemOk(hash, s) && Enabled(s, Advance(t, pick)) && o in s.open && o != t
    requires Statement(s.db, s.open[t], LockFree(hash, s, t), pick).Ok?
    ensures Separate(hash, Statement(s.db, s.open[t], LockFree(hash, s, t), pick).value, s.open[o])
    ensures Separate(hash, s.open[o], Statement(s.db, s.open[t], LockFree(hash, s, t), pick).value)
  {
    StatementFrame(s, t, LockFree(hash, s, t), pick);
    assert Separate(hash, s.open[t], s.open[o]);
    assert !HeldUpBy(s, t, o);
    if s.open[o].inserted.Some? { NewRowIsNew(s.db, s.open[o]); }
  }

  lemma NewRowIsNew(db: Tables, tx: Tx)
    requires TxOk(db, tx) && tx.inserted.Some?
    ensures tx.inserted.value.id !in db.votes
  {
  }

  lemma AdvanceKeeps(hash: string -> int, s: System, t: TxId, pick: Id)
    requires SystemOk(hash, s) && Enabled(s, Advance(t, pick))
    ensures SystemOk(hash, Next(hash, s, Advance(t, pick)))
  {
    StatementKeeps(s, t, LockFree(hash, s, t), pick);
    if Statement(s.db, s.open[t], LockFree(hash, s, t), pick).Ok? {
      forall o | o in s.open && o != t
        ensures Separate(hash, Statement(s.db, s.open[t], LockFree(hash, s, t), pick).value, s.open[o])
        ensures Separate(hash, s.open[o], Statement(s.db, s.open[t], LockFree(hash, s, t), pick).value)
      {
        StaysSeparate(hash, s, t, o, pick);
      }
    }
  }

  /** Lock winners of other pairs never see a commit: not their ballots, not their locked row. */
  lemma CommitKeeps(hash: string -> int, s: System, t: TxId)
    requires SystemOk(hash, s) && Enabled(s, Commit(t))
    ensures SystemOk(hash, Next(hash, s, Commit(t)))
  {
    var tx := s.open[t];
    var db' := Merge(s.db, tx);
    if tx.holdsLock {
      CommitIsOneStep(s.db, tx);
      forall o | o in s.open && o != t ensures TxOk(db', s.open[o]) {
        OthersSurviveCommit(hash, s, t, o);
      }
    } else {
      LoserChangesNothing(s.db, tx);
    }
  }

  lemma DeletedIsOwn(db: Tables, tx: Tx, v: Id)
    requires TxOk(db, tx) && v in tx.deleted
    ensures tx.holdsLock && tx.review in db.reviews && v in BallotsOf(db.votes, tx.user, tx.review)
  {
    assert tx.previous.Some?;
  }

  /** A commit leaves the ballots of every other pair alone. */
  lemma OtherBallots(db: Tables, tx: Tx, user: Id, review: Id)
    requires TxOk(db, tx) && (user != tx.user || review != tx.review)
    ensures BallotsOf(Merge(db, tx).votes, user, review) == BallotsOf(db.votes, user, review)
    ensures forall v :: v in BallotsOf(db.votes, user, review) ==> Merge(db, tx).votes[v] == db.votes[v]
  {
    forall v | v in tx.deleted ensures v !in BallotsOf(db.votes, user, review) {
      DeletedIsOwn(db, tx, v);
    }
    if tx.inserted.Some? {
      NewRowIsNew(db, tx);
      assert tx.inserted.value.vote.createdBy == tx.user && tx.inserted.value.vote.relatedReview == tx.review;
    }
  }

  lemma LockedRowExists(db: Tables, tx: Tx)
    requires TxOk(db, tx) && tx.row.Some?
    ensures tx.review in db.reviews
  {
  }

  lemma OthersSurviveCommit(hash: string -> int, s: System, t: TxId, o: TxId)
    requires SystemOk(hash, s) && Enabled(s, Commit(t)) && s.open[t].holdsLock
    requires o in s.open && o != t
    ensures TxOk(Merge(s.db, s.open[t]), s.open[o])
  {
    var tx, other := s.open[t], s.open[o];
    assert Separate(hash, tx, other);
    if tx.row.Some? { LockedRowExists(s.db, tx); }
    if other.holdsLock {
      OtherBallots(s.db, tx, other.user, other.review);
      if other.inserted.Some? { NewRowIsNew(s.db, other); }
      Unaffected(s.db, Merge(s.db, tx), other);
    } else {
      IdleAnywhere(s.db, Merge(s.db, tx), other);
    }
  }

  lemma IdleAnywhere(db: Tables, db': Tables, tx: Tx)
    requires TxOk(db, tx) && !tx.holdsLock && (tx.user in db.users ==> tx.user in db'.users)
    ensures TxOk(db', tx)
  {
  }

  lemma UntouchedByDeletion(db: Tables, user: Id, other: Id, review: Id)
    requires Referential(db) && user in db.users && other != user && review !in GoneReviews(db, user)
    ensures review in DeleteUser(db, user).reviews <==> review in db.reviews
    ensures BallotsOf(DeleteUser(db, user).votes, other, review) == BallotsOf(db.votes, other, review)
    ensures review in db.reviews && review !in VotedBy(db.votes, user, Up) + VotedBy(db.votes, user, Down)
      ==> DeleteUser(db, user).reviews[review] == db.reviews[review]
  {
    RowsAfterDelete(db, user);
    assert BallotsOf(DeleteUser(db, user).votes, other, review) == BallotsOf(db.votes, other, review);
  }

  lemma SurvivesDeletion(db: Tables, user: Id, tx: Tx)
    requires Sound(db) && TxOk(db, tx) && user in db.users && tx.user != user
    requires tx.row.Some? ==> tx.review !in VotedBy(db.votes, user, Up) + VotedBy(db.votes, user, Down)
    requires tx.review in GoneReviews(db, user) ==> NoWrites(tx)
    ensures TxOk(DeleteUser(db, user), tx)
  {
    RowsAfterDelete(db, user);
    if tx.review in GoneReviews(db, user) {
      ReviewGone(db, DeleteUser(db, user), tx);
    } else {
      UntouchedByDeletion(db, user, tx.user, tx.review);
      Unaffected(db, DeleteUser(db, user), tx);
    }
  }

  lemma DeletionKeeps(hash: string -> int, s: System, user: Id)
    requires SystemOk(hash, s) && DeletionFree(s, user)
    ensures SystemOk(hash, s.(db := DeleteUser(s.db, user)))
  {
    DeleteUserSound(s.db, user);
    if user in s.db.users {
      forall t | t in s.open ensures TxOk(DeleteUser(s.db, user), s.open[t]) {
        SurvivesDeletion(s.db, user, s.open[t]);
      }
    }
  }

  /** Adding an account, an item or a review touches no open transaction. */
  lemma AdditionKeeps(hash: string -> int, s: System, db: Tables)
    requires SystemOk(hash, s) && Sound(db)
    requires db.votes == s.db.votes && s.db.users <= db.users
    requires forall t :: t in s.open ==> (s.open[t].review in db.reviews <==> s.open[t].review in s.db.reviews)
    requires forall r :: r in s.db.reviews ==> r in db.reviews && db.reviews[r] == s.db.reviews[r]
    ensures SystemOk(hash, s.(db := db))
  {
    forall t | t in s.open ensures TxOk(db, s.open[t]) { Unaffected(s.db, db, s.open[t]); }
  }

  lemma ApplyKeeps(hash: string -> int, s: System, op: Op)
    requires SystemOk(hash, s) && OpEnabled(s, op)
    ensures SystemOk(hash, s.(db := ApplyOp(s.db, op)))
  {
    var db' := ApplyOp(s.db, op);
    match op
    case DeleteUserOp(user) => DeletionKeeps(hash, s, user);
    case RefreshOp => RefreshRepairs(s.db);
    case AddUserOp(user) =>
      assert forall r :: r in s.db.reviews ==> ExactRow(s.db, r) && ExactRow(db', r);
      AdditionKeeps(hash, s, db');
    case AddItemOp(id, row) =>
      assert forall r :: r in s.db.reviews ==> ExactRow(s.db, r) && ExactRow(db', r);
      AdditionKeeps(hash, s, db');
    case AddReviewOp(id, user, item) =>
      if CreateReview(s.db, id, user, item).Ok? {
        CreateReviewSound(s.db, id, user, item);
        AdditionKeeps(hash, s, db');
      }
  }

  lemma StepKeeps(hash: string -> int, s: System, e: Event)
    requires SystemOk(hash, s) && Enabled(s, e)
    ensures SystemOk(hash, Next(hash, s, e))
    ensures var s' := Next(hash, s, e);
      || (s'.db == s.db && s'.log == s.log)
      || (exists op :: s'.log == s.log + [op] && s'.db == ApplyOp(s.db, op))
  {
    match e
    case Begin(t, request, user, review) =>
    case Advance(t, pick) => AdvanceKeeps(hash, s, t, pick);
    case Commit(t) =>
      CommitKeeps(hash, s, t);
      if s.open[t].holdsLock {
        CommitIsOneStep(s.db, s.open[t]);
        assert Next(hash, s, e).log == s.log + [OpOf(s.open[t])];
      } else {
        LoserChangesNothing(s.db, s.open[t]);
      }
    case Rollback(t) =>
    case Apply(op) =>
      ApplyKeeps(hash, s, op);
      assert Next(hash, s, e).log == s.log + [op];
  }

  // ---------------------------------------------------------- main theorems

  /**
   Every run, however its statements interleave and whatever the lock keys collide on, leaves the
   committed tables that its committed changes leave when applied one at a time in commit order;
   and the tables are sound: exact counters, one ballot per user and review, no dangling reference.
   */
  lemma {:induction false} RunsAreSerial(hash: string -> int, db: Tables, s: System, es: seq<Event>)
    requires SystemOk(hash, s) && s.db == Replay(db, s.log) && Legal(hash, s, es)
    ensures var end := Run(hash, s, es);
      && SystemOk(hash, end)
      && end.db == Replay(db, end.log)
      && s.log <= end.log
    decreases |es|
  {
    if es != [] {
      StepKeeps(hash, s, es[0]);
      var s' := Next(hash, s, es[0]);
      if s'.log != s.log {
        assert s'.log[..|s'.log| - 1] == s.log;
      }
      RunsAreSerial(hash, db, s', es[1..]);
    }
  }

  /** The same from sound tables with no transaction open. */
  lemma CommittedStateIsSound(hash: string -> int, db: Tables, es: seq<Event>)
    requires Sound(db) && Legal(hash, Start(db), es)
    ensures Sound(Run(hash, Start(db), es).db)
    ensures Run(hash, Start(db), es).db == Replay(db, Run(hash, Start(db), es).log)
  {
    RunsAreSerial(hash, db, Start(db), es);
  }

  /** No statement ever shows a negative counter, not even between the two halves of a vote switch. */
  lemma CountersNeverNegative(hash: string -> int, s: System, t: TxId, action: VoteAction)
    requires SystemOk(hash, s) && t in s.open && s.open[t].row.Some?
    ensures Counter(s.open[t].row.value, action) >= 0
  {
    var tx := s.open[t];
    assert tx.review in s.db.reviews;
    assert ExactRow(s.db, tx.review);
    if tx.previous.Some? {
      assert tx.previous.value.id in BallotsOf(s.db.votes, tx.user, tx.review);
      Counted(s.db, tx.previous.value.id);
    }
  }

  /** How many steps a transaction still has, at most. */
  function StepsLeft(tx: Tx): nat {
    match tx.pc
    case Exists => 8
    case TryLock => 7
    case Find => 6
    case DeleteOld(_) => 5
    case Decrement(_) => 4
    case Insert(_) => 3
    case Increment(_) => 2
    case Ready => 1
  }

  function EventOf(s: System, t: TxId, pick: Id): Event
    requires t in s.open
  {
    if s.open[t].pc.Ready? then Commit(t) else Advance(t, pick)
  }

  /** A transaction only ever waits for the holder of its review row. */
  lemma WaitsOnlyForRow(hash: string -> int, s: System, t: TxId, o: TxId)
    requires SystemOk(hash, s) && t in s.open && o in s.open && o != t && HeldUpBy(s, t, o)
    ensures s.open[o].row.Some? && s.open[o].review == s.open[t].review && s.open[t].row.None?
  {
    var tx := s.open[t];
    assert Separate(hash, tx, s.open[o]);
    if tx.pc.DeleteOld? {
      DeletedIsOwn(s.db, s.open[o], tx.pc.seen.id);
    }
  }

  ghost predicate CanRun(s: System, t: TxId, pick: Id)
    requires t in s.open
  {
    Enabled(s, EventOf(s, t, pick))
  }

  ghost predicate MovesOn(hash: string -> int, s: System, t: TxId, pick: Id)
    requires t in s.open && CanRun(s, t, pick)
  {
    var s' := Next(hash, s, EventOf(s, t, pick));
    t in s'.open ==> StepsLeft(s'.open[t]) < StepsLeft(s.open[t])
  }

  lemma RunningMovesOn(hash: string -> int, s: System, t: TxId, pick: Id)
    requires SystemOk(hash, s) && t in s.open && CanRun(s, t, pick)
    ensures MovesOn(hash, s, t, pick)
  {
    if !s.open[t].pc.Ready? {
      StatementKeeps(s, t, LockFree(hash, s, t), pick);
    }
  }

  /**
   No deadlock: while transactions are open, one of them can run its next statement or commit,
   whatever fresh id the database would generate; and doing so brings it closer to its end.
   */
  lemma NeverStuck(hash: string -> int, s: System, newId: Id)
    requires SystemOk(hash, s) && s.open != map[] && NewVoteId(s, newId)
    ensures exists t, pick :: t in s.open && CanRun(s, t, pick) && MovesOn(hash, s, t, pick)
  {
    var t := SomeoneFree(hash, s);
    var pick := PickFor(s, t, newId);
    RunningMovesOn(hash, s, t, pick);
  }

  /** Who waits at all waits for someone who does not. */
  lemma SomeoneFree(hash: string -> int, s: System) returns (t: TxId)
    requires SystemOk(hash, s) && s.open != map[]
    ensures t in s.open && !Waits(s, t)
  {
    t :| t in s.open;
    if o :| o in s.open && o != t && HeldUpBy(s, t, o) {
      WaitsOnlyForRow(hash, s, t, o);
      forall p | p in s.open && p != o ensures !HeldUpBy(s, o, p) {
        if HeldUpBy(s, o, p) { WaitsOnlyForRow(hash, s, o, p); }
      }
      t := o;
    }
  }

  lemma PickFor(s: System, t: TxId, newId: Id) returns (pick: Id)
    requires t in s.open && !Waits(s, t) && NewVoteId(s, newId)
    ensures CanRun(s, t, pick)
  {
    var mine := BallotsOf(s.db.votes, s.open[t].user, s.open[t].review);
    pick := newId;
    if s.open[t].pc.Find? && mine != {} { pick :| pick in mine; }
  }
}
