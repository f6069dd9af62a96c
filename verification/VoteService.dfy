/**
 The voting, review and account-deletion services as they run on one database connection: each
 method issues its statements in the order the code does, and a failed statement rolls the whole
 transaction back. The contracts tie every call to the one-step change of Ledger.
 */
module VoteService {
  import opened Prelude
  import opened Ledger
  import opened VoteTransactions

  datatype DeleteError = UserNotFound | Violated(failure: Failure) | EvictionFailed

  predicate NonNegative(row: Review) {
    row.upVotes >= 0 && row.downVotes >= 0
  }

  ghost predicate CountersValid(t: Tables) {
    forall r :: r in t.reviews ==> NonNegative(t.reviews[r])
  }

  lemma SoundCountersValid(t: Tables)
    requires Sound(t)
    ensures CountersValid(t)
  {
    forall r | r in t.reviews ensures NonNegative(t.reviews[r]) {
      assert ExactRow(t, r);
      assert Counter(t.reviews[r], Up) >= 0 && Counter(t.reviews[r], Down) >= 0;
    }
  }

  function RelatedReviews(rows: seq<Vote>, action: VoteAction): (ids: seq<Id>)
    ensures forall r ::
      r in ids <==> exists i :: 0 <= i < |rows| && rows[i].action == action && rows[i].relatedReview == r
  {
    if rows == [] then []
    else
      var rest := RelatedReviews(rows[1..], action);
      assert forall i :: 1 <= i < |rows| ==> rows[i] == rows[1..][i - 1];
      if rows[0].action == action then [rows[0].relatedReview] + rest else rest
  }

  lemma VotedMeansCounted(t: Tables, user: Id, action: VoteAction, review: Id)
    requires Sound(t) && review in VotedBy(t.votes, user, action)
    ensures review in t.reviews && Counter(t.reviews[review], action) >= 1
  {
    var v :| v in t.votes && t.votes[v].createdBy == user && t.votes[v].action == action
      && t.votes[v].relatedReview == review;
    Counted(t, v);
  }

  /** Revoking leaves every counter at zero or above, after the first statement and after the second. */
  lemma RevokeStaysValid(t: Tables, user: Id)
    requires Sound(t)
    ensures CountersValid(t.(reviews := DecrementIn(t.reviews, VotedBy(t.votes, user, Up), Up)))
    ensures CountersValid(RevokeVotes(t, user))
  {
    SoundCountersValid(t);
    var once := DecrementIn(t.reviews, VotedBy(t.votes, user, Up), Up);
    forall r | r in t.reviews ensures NonNegative(once[r]) && NonNegative(RevokeVotes(t, user).reviews[r]) {
      assert NonNegative(t.reviews[r]);
      if r in VotedBy(t.votes, user, Up) { VotedMeansCounted(t, user, Up, r); }
      if r in VotedBy(t.votes, user, Down) { VotedMeansCounted(t, user, Down, r); }
    }
  }

  predicate Passes(reviews: map<Id, Review>, ids: set<Id>, action: VoteAction) {
    forall r :: r in ids && r in reviews ==> NonNegative(Bump(reviews[r], action, -1))
  }

  lemma ValidMeansPassed(t: Tables, ids: set<Id>, action: VoteAction)
    requires CountersValid(t.(reviews := DecrementIn(t.reviews, ids, action)))
    ensures Passes(t.reviews, ids, action)
  {
    var after := DecrementIn(t.reviews, ids, action);
    forall r | r in ids && r in t.reviews ensures NonNegative(Bump(t.reviews[r], action, -1)) {
      assert r in after && NonNegative(after[r]);
    }
  }

  /** Neither update of a revocation meets a counter that is zero already. */
  predicate Revocable(t: Tables, user: Id) {
    && Passes(t.reviews, VotedBy(t.votes, user, Up), Up)
    && Passes(DecrementIn(t.reviews, VotedBy(t.votes, user, Up), Up), VotedBy(t.votes, user, Down), Down)
  }

  /** And exactly the revocations that would. */
  lemma RevocableIffNotNegative(t: Tables, user: Id)
    requires CountersValid(t)
    ensures Revocable(t, user) <==> CountersValid(RevokeVotes(t, user))
  {
    var once := DecrementIn(t.reviews, VotedBy(t.votes, user, Up), Up);
    var twice := RevokeVotes(t, user).reviews;
    forall r | r in t.reviews
      ensures NonNegative(twice[r]) <==>
        && (r in VotedBy(t.votes, user, Up) ==> NonNegative(Bump(t.reviews[r], Up, -1)))
        && (r in VotedBy(t.votes, user, Down) ==> NonNegative(Bump(once[r], Down, -1)))
    {
      assert NonNegative(t.reviews[r]);
    }
    if CountersValid(RevokeVotes(t, user)) {
      forall r | r in t.reviews ensures NonNegative(twice[r]) { }
    }
  }

  lemma SoundIsRevocable(t: Tables, user: Id)
    requires Sound(t)
    ensures Revocable(t, user)
  {
    RevokeStaysValid(t, user);
    ValidMeansPassed(t, VotedBy(t.votes, user, Up), Up);
    var once := t.(reviews := DecrementIn(t.reviews, VotedBy(t.votes, user, Up), Up));
    ValidMeansPassed(once, VotedBy(t.votes, user, Down), Down);
  }

  /**
   The counter of a vote to be taken back is at zero already: the CHECK will refuse. Sound tables
   have no such vote.
   */
  ghost predicate Refused(t: Tables, user: Id, review: Id, kept: Option<VoteAction>)
    requires review in t.reviews
  {
    exists v ::
      && v in BallotsOf(t.votes, user, review)
      && kept != Some(t.votes[v].action) && Counter(t.reviews[review], t.votes[v].action) < 1
  }

  lemma SoundIsNotRefused(t: Tables, user: Id, review: Id, kept: Option<VoteAction>)
    requires Sound(t) && review in t.reviews
    ensures !Refused(t, user, review, kept)
  {
    forall v | v in BallotsOf(t.votes, user, review) ensures Counter(t.reviews[review], t.votes[v].action) >= 1 {
      Counted(t, v);
    }
  }

  /** What the statements of a vote do, given the row the SELECT found. */
  lemma CastPlan(t: Tables, user: Id, review: Id, action: VoteAction, newId: Id, previous: Option<Found>)
    requires UniqueBallots(t.votes) && user in t.users && review in t.reviews && newId !in t.votes
    requires previous.None? <==> BallotsOf(t.votes, user, review) == {}
    requires previous.Some? ==>
      previous.value.id in BallotsOf(t.votes, user, review) && t.votes[previous.value.id] == previous.value.vote
    ensures previous.Some? && previous.value.vote.action == action ==> CastVote(t, user, review, action, newId) == t
    ensures Refused(t, user, review, Some(action)) <==>
      && previous.Some? && previous.value.vote.action != action
      && Counter(t.reviews[review], previous.value.vote.action) < 1
    ensures !(previous.Some? && previous.value.vote.action == action) ==>
      var cleared := if previous.Some? then RemoveVote(t, previous.value.id) else t;
      && BallotsOf(cleared.votes, user, review) == {} && newId !in cleared.votes
      && CastVote(t, user, review, action, newId) == AddVote(cleared, newId, Vote(action, user, review))
  {
    if previous.Some? {
      OnlyBallot(t, user, review, previous.value.id);
      PollWithout(t.votes, previous.value.id);
      assert WithdrawVote(t, user, review) == RemoveVote(t, previous.value.id);
    }
  }

  /** The CHECK refuses exactly the requests that would leave a negative counter behind. */
  lemma RefusedIffNegative(t: Tables, user: Id, review: Id, action: VoteAction, newId: Id)
    requires UniqueBallots(t.votes) && user in t.users && review in t.reviews && newId !in t.votes && CountersValid(t)
    ensures Refused(t, user, review, Some(action)) <==> !CountersValid(CastVote(t, user, review, action, newId))
    ensures Refused(t, user, review, None) <==> !CountersValid(WithdrawVote(t, user, review))
  {
    assert NonNegative(t.reviews[review]);
    var mine := BallotsOf(t.votes, user, review);
    if mine == {} {
      CastPlan(t, user, review, action, newId, None);
      WithdrawPlan(t, user, review, None);
      OthersStay(t, CastVote(t, user, review, action, newId), review);
    } else {
      var v :| v in mine;
      CastPlan(t, user, review, action, newId, Some(Found(v, t.votes[v])));
      WithdrawPlan(t, user, review, Some(Found(v, t.votes[v])));
      OthersStay(t, CastVote(t, user, review, action, newId), review);
      OthersStay(t, WithdrawVote(t, user, review), review);
    }
  }

  lemma OthersStay(t: Tables, t': Tables, review: Id)
    requires CountersValid(t) && t'.reviews.Keys == t.reviews.Keys && review in t.reviews
    requires forall r :: r in t.reviews && r != review ==> t'.reviews[r] == t.reviews[r]
    ensures CountersValid(t') <==> NonNegative(t'.reviews[review])
  {
    forall r | r in t'.reviews && r != review ensures NonNegative(t'.reviews[r]) {
      assert NonNegative(t.reviews[r]);
    }
  }

  lemma CastStaysSound(t: Tables, user: Id, review: Id, action: VoteAction, newId: Id)
    requires Sound(t) && review in t.reviews && newId !in t.votes
    ensures !Refused(t, user, review, Some(action)) && Sound(CastVote(t, user, review, action, newId))
  {
    SoundIsNotRefused(t, user, review, Some(action));
    CastVoteSound(t, user, review, action, newId);
  }

  /** What those of a withdrawal do. */
  lemma WithdrawPlan(t: Tables, user: Id, review: Id, previous: Option<Found>)
    requires UniqueBallots(t.votes) && review in t.reviews
    requires previous.None? <==> BallotsOf(t.votes, user, review) == {}
    requires previous.Some? ==>
      previous.value.id in BallotsOf(t.votes, user, review) && t.votes[previous.value.id] == previous.value.vote
    ensures WithdrawVote(t, user, review) == if previous.Some? then RemoveVote(t, previous.value.id) else t
    ensures Refused(t, user, review, None)
      <==> previous.Some? && Counter(t.reviews[review], previous.value.vote.action) < 1
  {
    if previous.Some? {
      OnlyBallot(t, user, review, previous.value.id);
    }
  }

  /** Against the votes they count, exactly the listed counters have moved, each by delta. */
  ghost predicate DriftMoved(t: Tables, t': Tables, ids: set<Id>, action: VoteAction, delta: int) {
    && t'.reviews.Keys == t.reviews.Keys
    && forall r, a: VoteAction :: r in t.reviews ==>
         Drift(t', r, a) == Drift(t, r, a) + if r in ids && a == action then delta else 0
  }

  class Services {
    var users: set<Id>
    var items: map<Id, Item>
    var reviews: map<Id, Review>
    var votes: map<Id, Vote>
    var userCache: set<Id>

    function Rows(): Tables
      reads this
    {
      Tables(users, items, reviews, votes)
    }

    constructor ()
      ensures Sound(Rows()) && Rows() == Tables({}, map[], map[], map[])
    {
      users, items, reviews, votes, userCache := {}, map[], map[], map[], {};
    }

    // ------------------------------------------------------- ReviewService

    method ExistsOrThrow(reviewId: Id) returns (ok: bool)
      ensures ok <==> reviewId in reviews
    {
      ok := reviewId in reviews;
    }

    method IncrementVotesTx(reviewId: Id, action: VoteAction)
      modifies this`reviews
      ensures reviews == if reviewId in old(reviews)
        then old(reviews)[reviewId := Bump(old(reviews)[reviewId], action, 1)] else old(reviews)
      ensures DriftMoved(old(Rows()), Rows(), {reviewId}, action, 1)
    {
      if reviewId in reviews {
        reviews := reviews[reviewId := Bump(reviews[reviewId], action, 1)];
      }
    }

    /** The CHECK on the counter columns refuses an update that would go below zero. */
    method DecrementVotesTx(reviewId: Id, action: VoteAction) returns (ok: bool)
      modifies this`reviews
      ensures ok <==> (reviewId in old(reviews) ==> Counter(old(reviews)[reviewId], action) >= 1)
      ensures reviews == if ok && reviewId in old(reviews)
        then old(reviews)[reviewId := Bump(old(reviews)[reviewId], action, -1)] else old(reviews)
      ensures ok ==> DriftMoved(old(Rows()), Rows(), {reviewId}, action, -1)
    {
      if reviewId !in reviews { return true; }
      var row := Bump(reviews[reviewId], action, -1);
      ok := Counter(row, action) >= 0;
      if ok {
        reviews := reviews[reviewId := row];
      }
    }

    method DecrementVotesInTx(reviewIds: seq<Id>, action: VoteAction) returns (ok: bool)
      modifies this`reviews
      ensures ok <==> Passes(old(reviews), (set r | r in reviewIds), action)
      ensures reviews == if ok then DecrementIn(old(reviews), (set r | r in reviewIds), action) else old(reviews)
      ensures ok ==> DriftMoved(old(Rows()), Rows(), (set r | r in reviewIds), action, -1)
    {
      if |reviewIds| == 0 {
        assert DecrementIn(reviews, (set r | r in reviewIds), action) == reviews;
        return true;
      }
      ok := Passes(reviews, (set r | r in reviewIds), action);
      if ok {
        reviews := DecrementIn(reviews, (set r | r in reviewIds), action);
      }
    }

    method RefreshReviewVotes()
      modifies this`reviews
      ensures Rows() == RefreshVotes(old(Rows()))
      ensures Exact(Rows())
    {
      RefreshRepairs(Rows());
      reviews := map r | r in reviews :: if Drifted(Rows(), r) then Recounted(Rows(), r) else reviews[r];
    }

    // -------------------------------------------------------- VotesService

    method FindVote(userId: Id, reviewId: Id) returns (found: Option<Found>)
      ensures found.None? <==> BallotsOf(votes, userId, reviewId) == {}
      ensures found.Some? ==>
        found.value.id in BallotsOf(votes, userId, reviewId) && votes[found.value.id] == found.value.vote
    {
      var mine := BallotsOf(votes, userId, reviewId);
      if mine == {} { return None; }
      var v :| v in mine;
      found := Some(Found(v, votes[v]));
    }

    method DeleteVoteAndUpdateReviewTx(vote: Found, reviewId: Id) returns (ok: bool)
      requires vote.id in votes && votes[vote.id] == vote.vote && vote.vote.relatedReview == reviewId
        && reviewId in reviews
      modifies this`votes, this`reviews
      ensures ok ==> Rows() == RemoveVote(old(Rows()), vote.id)
      ensures ok <==> Counter(old(reviews)[reviewId], vote.vote.action) >= 1
    {
      votes := votes - {vote.id};
      ok := DecrementVotesTx(reviewId, vote.vote.action);
    }

    method SaveVote(newId: Id, vote: Vote) returns (saved: Result<(), Failure>)
      modifies this`votes
      ensures saved.Ok? <==>
        && newId !in old(votes) && vote.createdBy in users && vote.relatedReview in reviews
        && BallotsOf(old(votes), vote.createdBy, vote.relatedReview) == {}
      ensures saved.Ok? ==> saved == Ok(())
      ensures saved == Err(ForeignKeyViolated) <==> vote.createdBy !in users || vote.relatedReview !in reviews
      ensures votes == if saved.Ok? then old(votes)[newId := vote] else old(votes)
    {
      if vote.createdBy !in users || vote.relatedReview !in reviews { return Err(ForeignKeyViolated); }
      if newId in votes || BallotsOf(votes, vote.createdBy, vote.relatedReview) != {} { return Err(UniqueViolated); }
      votes := votes[newId := vote];
      saved := Ok(());
    }

    method SaveAndCount(newId: Id, vote: Vote) returns (saved: Result<(), Failure>)
      modifies this`votes, this`reviews
      ensures saved.Ok? <==>
        && newId !in old(votes) && vote.createdBy in users && vote.relatedReview in old(reviews)
        && BallotsOf(old(votes), vote.createdBy, vote.relatedReview) == {}
      ensures saved.Ok? ==> vote.relatedReview in old(reviews) && Rows() == AddVote(old(Rows()), newId, vote)
      ensures saved.Ok? ==> saved == Ok(())
      ensures saved == Err(ForeignKeyViolated) <==> vote.createdBy !in users || vote.relatedReview !in old(reviews)
      ensures saved.Err? ==> Rows() == old(Rows())
    {
      saved := SaveVote(newId, vote);
      if saved.Ok? {
        IncrementVotesTx(vote.relatedReview, vote.action);
      }
    }

    /** `acquired` is the answer of the advisory try-lock, `newId` the id the database generates. */
    method VoteReview(reviewId: Id, userId: Id, action: VoteAction, acquired: bool, newId: Id)
      returns (reply: Result<(), Failure>)
      modifies this`votes, this`reviews
      ensures reply.Err? ==> Rows() == old(Rows())
      ensures reviewId !in old(reviews) ==> reply == Err(ReviewNotFound)
      ensures reviewId in old(reviews) && !acquired ==> reply == Ok(()) && Rows() == old(Rows())
      ensures acquired && userId in users && reviewId in old(reviews) && newId !in old(votes) ==>
        UniqueBallots(old(votes)) ==>
        && reply == (if Refused(old(Rows()), userId, reviewId, Some(action)) then Err(CheckViolated) else Ok(()))
        && (reply.Ok? ==> Rows() == CastVote(old(Rows()), userId, reviewId, action, newId))
        && (Sound(old(Rows())) ==> reply == Ok(()) && Sound(Rows()))
      ensures Sound(old(Rows())) && reviewId in old(reviews) && acquired && userId !in users ==>
        reply == Err(ForeignKeyViolated)
    {
      ghost var t := Rows();
      var rollback := Rows();
      var known := ExistsOrThrow(reviewId);
      if !known { return Err(ReviewNotFound); }
      if !acquired { return Ok(()); }
      var previousVote := FindVote(userId, reviewId);
      if UniqueBallots(votes) && userId in users && newId !in votes {
        CastPlan(t, userId, reviewId, action, newId, previousVote);
        if Sound(t) { CastStaysSound(t, userId, reviewId, action, newId); }
      }
      if previousVote.Some? {
        var previous := previousVote.value;
        if previous.vote.action == action { return Ok(()); }
        var ok := DeleteVoteAndUpdateReviewTx(previous, reviewId);
        if !ok {
          votes, reviews := rollback.votes, rollback.reviews;
          return Err(CheckViolated);
        }
      }
      reply := SaveAndCount(newId, Vote(action, userId, reviewId));
      if reply.Err? {
        votes, reviews := rollback.votes, rollback.reviews;
      }
    }

    method DeleteVote(reviewId: Id, userId: Id, acquired: bool) returns (reply: Result<bool, Failure>)
      modifies this`votes, this`reviews
      ensures reply.Err? || reply == Ok(false) ==> Rows() == old(Rows())
      ensures reviewId !in old(reviews) ==> reply == Err(ReviewNotFound)
      ensures reviewId in old(reviews) && !acquired ==> reply == Ok(false)
      ensures UniqueBallots(old(votes)) && reviewId in old(reviews) && acquired ==>
        && reply == (if Refused(old(Rows()), userId, reviewId, None) then Err(CheckViolated)
          else Ok(BallotsOf(old(votes), userId, reviewId) != {}))
        && (reply.Ok? ==> Rows() == WithdrawVote(old(Rows()), userId, reviewId))
        && (Sound(old(Rows())) ==> reply.Ok? && Sound(Rows()))
    {
      ghost var t := Rows();
      var rollback := Rows();
      var known := ExistsOrThrow(reviewId);
      if !known { return Err(ReviewNotFound); }
      var deleted := false;
      if !acquired { return Ok(deleted); }
      var previousVote := FindVote(userId, reviewId);
      if UniqueBallots(votes) { WithdrawPlan(t, userId, reviewId, previousVote); }
      if Sound(t) {
        SoundIsNotRefused(t, userId, reviewId, None);
        WithdrawVoteSound(t, userId, reviewId);
      }
      if previousVote.None? { return Ok(deleted); }
      var ok := DeleteVoteAndUpdateReviewTx(previousVote.value, reviewId);
      if !ok {
        votes, reviews := rollback.votes, rollback.reviews;
        return Err(CheckViolated);
      }
      deleted := true;
      reply := Ok(deleted);
    }

    method FindVotesBy(userId: Id) returns (rows: seq<Vote>)
      ensures forall b :: b in rows <==> exists v :: v in votes && votes[v] == b && b.createdBy == userId
    {
      var rest := set v | v in votes && votes[v].createdBy == userId;
      ghost var all := rest;
      rows := [];
      while rest != {}
        invariant rest <= all
        invariant forall b :: b in rows <==> exists v :: v in all - rest && votes[v] == b
      {
        var v :| v in rest;
        ghost var before := rows;
        rows := rows + [votes[v]];
        rest := rest - {v};
        forall b ensures b in rows <==> exists w :: w in all - rest && votes[w] == b {
          if b in before { var w :| w in all - rest - {v} && votes[w] == b; assert w in all - rest; }
          if b == votes[v] { assert v in all - rest; }
        }
      }
      forall b ensures b in rows <==> exists v :: v in votes && votes[v] == b && b.createdBy == userId {
        if b in rows { var v :| v in all && votes[v] == b; }
        if v :| v in votes && votes[v] == b && b.createdBy == userId { assert v in all; }
      }
    }

    method RevokeUserVotesOnReviewsTx(userId: Id) returns (ok: bool)
      modifies this`reviews
      ensures ok <==> Revocable(old(Rows()), userId)
      ensures ok ==> Rows() == RevokeVotes(old(Rows()), userId)
    {
      var rows := FindVotesBy(userId);
      var upVotes := RelatedReviews(rows, Up);
      var downVotes := RelatedReviews(rows, Down);
      assert (set r | r in upVotes) == VotedBy(votes, userId, Up) by { IdsAreVotedBy(votes, userId, Up, rows); }
      assert (set r | r in downVotes) == VotedBy(votes, userId, Down) by { IdsAreVotedBy(votes, userId, Down, rows); }
      ok := DecrementVotesInTx(upVotes, Up);
      if !ok { return; }
      ok := DecrementVotesInTx(downVotes, Down);
    }

    // ------------------------------------------------- UserDeletionService

    /**
     Revoke and delete with cascades: all of it, or nothing and an error. The eviction follows the
     commit: when Redis fails it (`evicts` is false) the account is gone and the caller gets an error.
     */
    method DeleteOne(userId: Id, evicts: bool) returns (reply: Result<(), DeleteError>)
      modifies this
      ensures reply == Err(UserNotFound) <==> userId !in old(users)
      ensures reply.Ok? || reply == Err(EvictionFailed) <==> userId in old(users) && Revocable(old(Rows()), userId)
      ensures reply.Ok? ==>
        evicts && Rows() == DeleteUser(old(Rows()), userId) && userCache == old(userCache) - {userId}
      ensures reply == Err(EvictionFailed) ==>
        !evicts && Rows() == DeleteUser(old(Rows()), userId) && userCache == old(userCache)
      ensures reply.Err? && reply != Err(EvictionFailed) ==> Rows() == old(Rows()) && userCache == old(userCache)
      ensures Sound(old(Rows())) ==> Sound(Rows()) && userId !in users && (userId in old(users) && evicts ==> reply.Ok?)
    {
      ghost var t := Rows();
      var rollback := Rows();
      if userId !in users { return Err(UserNotFound); }
      if Sound(t) {
        DeleteUserSound(t, userId);
        SoundIsRevocable(t, userId);
      }
      var ok := RevokeUserVotesOnReviewsTx(userId);
      if !ok {
        reviews := rollback.reviews;
        return Err(Violated(CheckViolated));
      }
      var doomed := Rows();
      users := users - {userId};
      votes := votes - GoneVotes(doomed, userId);
      reviews := reviews - GoneReviews(doomed, userId);
      items := items - GoneItems(doomed, userId);
      if !evicts { return Err(EvictionFailed); }
      userCache := userCache - {userId};
      reply := Ok(());
    }
  }

  lemma IdsAreVotedBy(votes: map<Id, Vote>, user: Id, action: VoteAction, rows: seq<Vote>)
    requires forall b :: b in rows <==> exists v :: v in votes && votes[v] == b && b.createdBy == user
    ensures (set r | r in RelatedReviews(rows, action)) == VotedBy(votes, user, action)
  {
    forall r ensures r in RelatedReviews(rows, action) <==> r in VotedBy(votes, user, action) {
      if r in RelatedReviews(rows, action) {
        var i :| 0 <= i < |rows| && rows[i].action == action && rows[i].relatedReview == r;
        assert rows[i] in rows;
      }
      if r in VotedBy(votes, user, action) {
        var v :| v in votes && votes[v].createdBy == user && votes[v].action == action && votes[v].relatedReview == r;
        assert votes[v] in rows;
      }
    }
  }
}
