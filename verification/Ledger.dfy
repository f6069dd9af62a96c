/**
 The relational tables behind voting: accounts, items, reviews and votes, with the
 `upvotes`/`downvotes` columns that cache the vote table. Every operation is given here as one
 step on whole tables; VoteTransactions shows that the interleaved statements amount to these
 steps, and VoteService that the service code computes them.
 */
module Ledger {
  import opened Prelude

  type Id = string

  datatype VoteAction = Up | Down

  datatype Vote = Vote(action: VoteAction, createdBy: Id, relatedReview: Id)

  datatype Review = Review(createdBy: Id, relatedItem: Id, upVotes: int, downVotes: int)

  datatype Item = Item(createdBy: Id, title: string)

  datatype Tables = Tables(users: set<Id>, items: map<Id, Item>, reviews: map<Id, Review>, votes: map<Id, Vote>)

  // ---------------------------------------------------------------- counters

  function Counter(row: Review, action: VoteAction): int {
    match action
    case Up => row.upVotes
    case Down => row.downVotes
  }

  /** `UPDATE review SET <column> = <column> + delta` on one row. */
  function Bump(row: Review, action: VoteAction, delta: int): (r: Review)
    ensures forall a: VoteAction :: Counter(r, a) == Counter(row, a) + if a == action then delta else 0
    ensures r.createdBy == row.createdBy && r.relatedItem == row.relatedItem
  {
    match action
    case Up => row.(upVotes := row.upVotes + delta)
    case Down => row.(downVotes := row.downVotes + delta)
  }

  function Ballots(votes: map<Id, Vote>, review: Id, action: VoteAction): set<Id> {
    set v | v in votes && votes[v].relatedReview == review && votes[v].action == action
  }

  function BallotsOf(votes: map<Id, Vote>, user: Id, review: Id): set<Id> {
    set v | v in votes && votes[v].createdBy == user && votes[v].relatedReview == review
  }

  // ------------------------------------------------------------- soundness

  /** The unique key (created_by, related_review) of the vote table. */
  ghost predicate UniqueBallots(votes: map<Id, Vote>) {
    forall v, w ::
      (&& v in votes && w in votes
       && votes[v].createdBy == votes[w].createdBy
       && votes[v].relatedReview == votes[w].relatedReview) ==> v == w
  }

  ghost predicate UniqueReviews(reviews: map<Id, Review>) {
    forall r, q ::
      (&& r in reviews && q in reviews
       && reviews[r].createdBy == reviews[q].createdBy
       && reviews[r].relatedItem == reviews[q].relatedItem) ==> r == q
  }

  ghost predicate ExactRow(t: Tables, review: Id)
    requires review in t.reviews
  {
    forall a: VoteAction :: Counter(t.reviews[review], a) == |Ballots(t.votes, review, a)|
  }

  ghost predicate Exact(t: Tables) {
    forall r :: r in t.reviews ==> ExactRow(t, r)
  }

  /** Every foreign key points at an existing row. */
  ghost predicate Referential(t: Tables) {
    && (forall i :: i in t.items ==> t.items[i].createdBy in t.users)
    && (forall r :: r in t.reviews ==> t.reviews[r].createdBy in t.users && t.reviews[r].relatedItem in t.items)
    && (forall v :: v in t.votes ==> t.votes[v].createdBy in t.users && t.votes[v].relatedReview in t.reviews)
  }

  ghost predicate Sound(t: Tables) {
    && Exact(t)
    && Referential(t)
    && UniqueBallots(t.votes)
    && UniqueReviews(t.reviews)
  }

  // ---------------------------------------------------- voting, in one step

  /** Drop a vote row and take it off its review's counter (`deleteVoteAndUpdateReviewTx`). */
  function RemoveVote(t: Tables, vote: Id): Tables
    requires vote in t.votes && t.votes[vote].relatedReview in t.reviews
  {
    var review := t.votes[vote].relatedReview;
    t.(votes := t.votes - {vote}, reviews := t.reviews[review := Bump(t.reviews[review], t.votes[vote].action, -1)])
  }

  /** Insert a vote row and add it to its review's counter. */
  function AddVote(t: Tables, id: Id, vote: Vote): Tables
    requires vote.relatedReview in t.reviews
  {
    t.(votes := t.votes[id := vote],
       reviews := t.reviews[vote.relatedReview := Bump(t.reviews[vote.relatedReview], vote.action, 1)])
  }

  /** What `deleteVote` does when it wins the lock. */
  ghost function WithdrawVote(t: Tables, user: Id, review: Id): Tables {
    var mine := BallotsOf(t.votes, user, review);
    if review !in t.reviews || mine == {} then t
    else
      var v :| v in mine;
      RemoveVote(t, v)
  }

  ghost predicate HasVoted(t: Tables, user: Id, review: Id, action: VoteAction) {
    exists v :: v in BallotsOf(t.votes, user, review) && t.votes[v].action == action
  }

  /** What `voteReview` does when it wins the lock; `newId` is the id the new vote row gets. */
  ghost function CastVote(t: Tables, user: Id, review: Id, action: VoteAction, newId: Id): Tables {
    if review !in t.reviews || user !in t.users || HasVoted(t, user, review, action) then t
    else AddVote(WithdrawVote(t, user, review), newId, Vote(action, user, review))
  }

  /**
   The poll a vote table records: who stands where on which review. It forgets row ids and
   counters, so it is the reference the row-level operations are measured against.
   */
  function Poll(votes: map<Id, Vote>): set<Vote> {
    set v | v in votes :: votes[v]
  }

  /** A poll without the user's entry on the review. */
  function Without(poll: set<Vote>, user: Id, review: Id): set<Vote> {
    set b | b in poll && !(b.createdBy == user && b.relatedReview == review)
  }

  lemma BallotsInsert(votes: map<Id, Vote>, id: Id, vote: Vote, review: Id, action: VoteAction)
    requires id !in votes
    ensures Ballots(votes[id := vote], review, action)
      == Ballots(votes, review, action) + if vote.relatedReview == review && vote.action == action then {id} else {}
    ensures |Ballots(votes[id := vote], review, action)|
      == |Ballots(votes, review, action)| + if vote.relatedReview == review && vote.action == action then 1 else 0
  {
    var counted := if vote.relatedReview == review && vote.action == action then {id} else {};
    forall v
      ensures v in Ballots(votes[id := vote], review, action) <==> v in Ballots(votes, review, action) + counted
    {
      BallotsInserted(votes, id, vote, review, action, v);
    }
    assert Ballots(votes[id := vote], review, action) == Ballots(votes, review, action) + counted;
  }

  lemma BallotsInserted(votes: map<Id, Vote>, id: Id, vote: Vote, review: Id, action: VoteAction, v: Id)
    requires id !in votes
    ensures v in Ballots(votes[id := vote], review, action) <==>
      v in Ballots(votes, review, action) || (v == id && vote.relatedReview == review && vote.action == action)
  {
  }

  lemma BallotsRemove(votes: map<Id, Vote>, id: Id, review: Id, action: VoteAction)
    requires id in votes
    ensures Ballots(votes - {id}, review, action) == Ballots(votes, review, action) - {id}
    ensures |Ballots(votes - {id}, review, action)|
      == |Ballots(votes, review, action)|
         - if votes[id].relatedReview == review && votes[id].action == action then 1 else 0
  {
    assert Ballots(votes - {id}, review, action) == Ballots(votes, review, action) - {id};
  }

  lemma RemoveVoteSound(t: Tables, vote: Id)
    requires Sound(t) && vote in t.votes
    ensures Sound(RemoveVote(t, vote))
  {
    var t' := RemoveVote(t, vote);
    forall r | r in t'.reviews ensures ExactRow(t', r) {
      assert ExactRow(t, r);
      forall a: VoteAction ensures Counter(t'.reviews[r], a) == |Ballots(t'.votes, r, a)| {
        BallotsRemove(t.votes, vote, r, a);
      }
    }
    SameShape(t, t');
  }

  lemma AddVoteSound(t: Tables, id: Id, vote: Vote)
    requires Sound(t) && id !in t.votes && vote.createdBy in t.users && vote.relatedReview in t.reviews
    requires BallotsOf(t.votes, vote.createdBy, vote.relatedReview) == {}
    ensures Sound(AddVote(t, id, vote))
  {
    var t' := AddVote(t, id, vote);
    forall r | r in t'.reviews ensures ExactRow(t', r) {
      assert ExactRow(t, r);
      forall a: VoteAction ensures Counter(t'.reviews[r], a) == |Ballots(t'.votes, r, a)| {
        BallotsInsert(t.votes, id, vote, r, a);
      }
    }
    forall w | w in t.votes && t.votes[w].createdBy == vote.createdBy
      ensures t.votes[w].relatedReview != vote.relatedReview
    {
      assert w !in BallotsOf(t.votes, vote.createdBy, vote.relatedReview);
    }
    SameShape(t, t');
  }

  /** Counter updates leave the review keys and references alone. */
  lemma SameShape(t: Tables, t': Tables)
    requires t'.reviews.Keys == t.reviews.Keys && t'.users == t.users && t'.items == t.items
    requires forall r :: r in t.reviews ==>
      t'.reviews[r].createdBy == t.reviews[r].createdBy && t'.reviews[r].relatedItem == t.reviews[r].relatedItem
    ensures UniqueReviews(t.reviews) ==> UniqueReviews(t'.reviews)
    ensures Referential(t)
      && (forall v :: v in t'.votes ==> t'.votes[v].createdBy in t.users && t'.votes[v].relatedReview in t.reviews)
      ==> Referential(t')
  {
  }

  /** Removing the rows of one user on one review, of which there is at most one. */
  lemma PollWithout(votes: map<Id, Vote>, vote: Id)
    requires UniqueBallots(votes) && vote in votes
    ensures Poll(votes - {vote}) == Without(Poll(votes), votes[vote].createdBy, votes[vote].relatedReview)
    ensures BallotsOf(votes - {vote}, votes[vote].createdBy, votes[vote].relatedReview) == {}
  {
    var rest := votes - {vote};
    forall b ensures b in Poll(rest) <==> b in Without(Poll(votes), votes[vote].createdBy, votes[vote].relatedReview) {
      if b in Without(Poll(votes), votes[vote].createdBy, votes[vote].relatedReview) {
        var v :| v in votes && votes[v] == b;
        assert v in rest;
      }
    }
  }

  lemma PollWith(votes: map<Id, Vote>, id: Id, vote: Vote)
    requires id !in votes
    ensures Poll(votes[id := vote]) == Poll(votes) + {vote}
  {
    var more := votes[id := vote];
    forall b ensures b in Poll(more) <==> b in Poll(votes) + {vote} {
      if b in Poll(votes) {
        var v :| v in votes && votes[v] == b;
        assert v in more && more[v] == b;
      }
      if b == vote {
        assert id in more && more[id] == vote;
      }
    }
  }

  lemma NoneOf(votes: map<Id, Vote>, user: Id, review: Id)
    requires BallotsOf(votes, user, review) == {}
    ensures Without(Poll(votes), user, review) == Poll(votes)
  {
    forall v | v in votes && votes[v].createdBy == user ensures votes[v].relatedReview != review {
      assert v !in BallotsOf(votes, user, review);
    }
  }

  /** Nothing changes but the counters of the review and the user's vote rows on it. */
  ghost predicate OnlyRow(t: Tables, t': Tables, user: Id, review: Id) {
    && t'.users == t.users && t'.items == t.items && t'.reviews.Keys == t.reviews.Keys
    && (forall r :: r in t.reviews ==>
          && t'.reviews[r].createdBy == t.reviews[r].createdBy && t'.reviews[r].relatedItem == t.reviews[r].relatedItem
          && (r != review ==> t'.reviews[r] == t.reviews[r]))
    && (forall v :: v in t.votes && !(t.votes[v].createdBy == user && t.votes[v].relatedReview == review) ==>
          v in t'.votes && t'.votes[v] == t.votes[v])
    && (forall v :: v in t'.votes && !(t'.votes[v].createdBy == user && t'.votes[v].relatedReview == review) ==>
          v in t.votes)
  }

  /** Withdrawing keeps the tables sound and takes exactly the user's entry out of the poll. */
  lemma WithdrawVoteSound(t: Tables, user: Id, review: Id)
    requires Sound(t)
    ensures Sound(WithdrawVote(t, user, review))
    ensures Poll(WithdrawVote(t, user, review).votes) == Without(Poll(t.votes), user, review)
    ensures BallotsOf(WithdrawVote(t, user, review).votes, user, review) == {}
    ensures WithdrawVote(t, user, review).reviews.Keys == t.reviews.Keys
    ensures WithdrawVote(t, user, review).users == t.users
  {
    var mine := BallotsOf(t.votes, user, review);
    if review in t.reviews && mine != {} {
      var v :| v in mine && WithdrawVote(t, user, review) == RemoveVote(t, v);
      RemoveVoteSound(t, v);
      PollWithout(t.votes, v);
    } else {
      assert mine == {} by {
        assert forall v :: v in t.votes ==> t.votes[v].relatedReview in t.reviews;
      }
      NoneOf(t.votes, user, review);
    }
  }

  lemma VotedAlready(t: Tables, user: Id, review: Id, action: VoteAction)
    requires UniqueBallots(t.votes) && HasVoted(t, user, review, action)
    ensures Without(Poll(t.votes), user, review) + {Vote(action, user, review)} == Poll(t.votes)
  {
    var v :| v in BallotsOf(t.votes, user, review) && t.votes[v].action == action;
    assert t.votes[v] == Vote(action, user, review);
    forall b | b in Poll(t.votes) && b.createdBy == user && b.relatedReview == review ensures b == t.votes[v] {
      var w :| w in t.votes && t.votes[w] == b;
    }
  }

  /** Casting keeps the tables sound and sets exactly the user's entry of the poll. */
  lemma CastVoteSound(t: Tables, user: Id, review: Id, action: VoteAction, newId: Id)
    requires Sound(t) && newId !in t.votes
    ensures Sound(CastVote(t, user, review, action, newId))
    ensures Poll(CastVote(t, user, review, action, newId).votes)
      == if review in t.reviews && user in t.users
         then Without(Poll(t.votes), user, review) + {Vote(action, user, review)} else Poll(t.votes)
    ensures CastVote(t, user, review, action, newId).reviews.Keys == t.reviews.Keys
  {
    if review in t.reviews && user in t.users {
      if HasVoted(t, user, review, action) {
        VotedAlready(t, user, review, action);
      } else {
        var c := WithdrawVote(t, user, review);
        WithdrawVoteSound(t, user, review);
        assert c.votes.Keys <= t.votes.Keys;
        AddVoteSound(c, newId, Vote(action, user, review));
        PollWith(c.votes, newId, Vote(action, user, review));
      }
    }
  }

  /** Voting touches nothing but the review's counters and the voter's rows on it. */
  lemma VotingOnlyRow(t: Tables, user: Id, review: Id, action: VoteAction, newId: Id)
    requires newId !in t.votes
    ensures OnlyRow(t, WithdrawVote(t, user, review), user, review)
    ensures OnlyRow(t, CastVote(t, user, review, action, newId), user, review)
  {
    WithdrawOnlyRow(t, user, review);
    if review in t.reviews && user in t.users && !HasVoted(t, user, review, action) {
      AddOnlyRow(t, WithdrawVote(t, user, review), newId, Vote(action, user, review));
    }
  }

  lemma WithdrawOnlyRow(t: Tables, user: Id, review: Id)
    ensures OnlyRow(t, WithdrawVote(t, user, review), user, review)
  {
    var mine := BallotsOf(t.votes, user, review);
    if review in t.reviews && mine != {} {
      var v :| v in mine && WithdrawVote(t, user, review) == RemoveVote(t, v);
    }
  }

  lemma AddOnlyRow(t: Tables, t': Tables, id: Id, vote: Vote)
    requires vote.relatedReview in t'.reviews && id !in t.votes && OnlyRow(t, t', vote.createdBy, vote.relatedReview)
    ensures OnlyRow(t, AddVote(t', id, vote), vote.createdBy, vote.relatedReview)
  {
  }

  // ------------------------------------------------------------------ drift

  /** How far a counter is above the votes it counts; sound tables have none, and none is created by voting. */
  ghost function Drift(t: Tables, review: Id, action: VoteAction): int
    requires review in t.reviews
  {
    Counter(t.reviews[review], action) - |Ballots(t.votes, review, action)|
  }

  lemma RemoveVoteDrift(t: Tables, vote: Id, review: Id, action: VoteAction)
    requires vote in t.votes && t.votes[vote].relatedReview in t.reviews && review in t.reviews
    ensures Drift(RemoveVote(t, vote), review, action) == Drift(t, review, action)
  {
    BallotsRemove(t.votes, vote, review, action);
  }

  lemma AddVoteDrift(t: Tables, id: Id, vote: Vote, review: Id, action: VoteAction)
    requires id !in t.votes && vote.relatedReview in t.reviews && review in t.reviews
    ensures Drift(AddVote(t, id, vote), review, action) == Drift(t, review, action)
  {
    BallotsInsert(t.votes, id, vote, review, action);
  }

  lemma WithdrawVoteDrift(t: Tables, user: Id, related: Id, review: Id, action: VoteAction)
    requires review in t.reviews
    ensures WithdrawVote(t, user, related).reviews.Keys == t.reviews.Keys
    ensures WithdrawVote(t, user, related).votes.Keys <= t.votes.Keys
    ensures Drift(WithdrawVote(t, user, related), review, action) == Drift(t, review, action)
  {
    var mine := BallotsOf(t.votes, user, related);
    if related in t.reviews && mine != {} {
      var v :| v in mine && WithdrawVote(t, user, related) == RemoveVote(t, v);
      RemoveVoteDrift(t, v, review, action);
    }
  }

  /** From any tables, however wrong, casting and withdrawing neither add to the drift of a counter nor take from it. */
  lemma VotingKeepsDrift(t: Tables, user: Id, related: Id, cast: VoteAction, newId: Id, review: Id, action: VoteAction)
    requires newId !in t.votes && review in t.reviews
    ensures WithdrawVote(t, user, related).reviews.Keys == CastVote(t, user, related, cast, newId).reviews.Keys
      == t.reviews.Keys
    ensures Drift(WithdrawVote(t, user, related), review, action) == Drift(t, review, action)
    ensures Drift(CastVote(t, user, related, cast, newId), review, action) == Drift(t, review, action)
  {
    WithdrawVoteDrift(t, user, related, review, action);
    if related in t.reviews && user in t.users && !HasVoted(t, user, related, cast) {
      AddVoteDrift(WithdrawVote(t, user, related), newId, Vote(cast, user, related), review, action);
    }
  }

  // ------------------------------------------------------ deleting a user

  function VotedBy(votes: map<Id, Vote>, user: Id, action: VoteAction): set<Id> {
    set v | v in votes && votes[v].createdBy == user && votes[v].action == action :: votes[v].relatedReview
  }

  /** `UPDATE review SET <column> = <column> - 1 WHERE id IN (ids)`: once per row, however often it is listed. */
  function DecrementIn(reviews: map<Id, Review>, ids: set<Id>, action: VoteAction): map<Id, Review> {
    map r | r in reviews :: if r in ids then Bump(reviews[r], action, -1) else reviews[r]
  }

  function RevokeVotes(t: Tables, user: Id): Tables {
    t.(reviews := DecrementIn(DecrementIn(t.reviews, VotedBy(t.votes, user, Up), Up),
                              VotedBy(t.votes, user, Down), Down))
  }

  function GoneItems(t: Tables, user: Id): set<Id> {
    set i | i in t.items && t.items[i].createdBy == user
  }

  function GoneReviews(t: Tables, user: Id): set<Id> {
    set r | r in t.reviews && (t.reviews[r].createdBy == user || t.reviews[r].relatedItem in GoneItems(t, user))
  }

  function GoneVotes(t: Tables, user: Id): set<Id> {
    set v | v in t.votes && (t.votes[v].createdBy == user || t.votes[v].relatedReview in GoneReviews(t, user))
  }

  /** `DELETE FROM account` with its ON DELETE CASCADE chain. */
  function Cascade(t: Tables, user: Id): Tables {
    Tables(t.users - {user}, t.items - GoneItems(t, user),
           t.reviews - GoneReviews(t, user), t.votes - GoneVotes(t, user))
  }

  function DeleteUser(t: Tables, user: Id): Tables {
    if user in t.users then Cascade(RevokeVotes(t, user), user) else t
  }

  function MineOn(votes: map<Id, Vote>, user: Id, review: Id, action: VoteAction): set<Id> {
    set v | v in Ballots(votes, review, action) && votes[v].createdBy == user
  }

  lemma BallotsAfterDelete(t: Tables, user: Id, review: Id, action: VoteAction)
    requires user in t.users && review in DeleteUser(t, user).reviews
    ensures |Ballots(DeleteUser(t, user).votes, review, action)|
      == |Ballots(t.votes, review, action)| - |MineOn(t.votes, user, review, action)|
  {
    RowsAfterDelete(t, user);
    BallotsKept(t, user, review, action);
  }

  lemma BallotsKept(t: Tables, user: Id, review: Id, action: VoteAction)
    requires review !in GoneReviews(t, user)
    ensures |Ballots(t.votes - GoneVotes(t, user), review, action)|
      == |Ballots(t.votes, review, action)| - |MineOn(t.votes, user, review, action)|
  {
    var all, mine := Ballots(t.votes, review, action), MineOn(t.votes, user, review, action);
    assert Ballots(t.votes - GoneVotes(t, user), review, action) == all - mine;
    assert mine <= all;
  }

  lemma VotedByMine(votes: map<Id, Vote>, user: Id, review: Id, action: VoteAction)
    ensures review in VotedBy(votes, user, action) <==> MineOn(votes, user, review, action) != {}
  {
    if review in VotedBy(votes, user, action) {
      var v :| v in votes && votes[v].createdBy == user && votes[v].action == action
        && votes[v].relatedReview == review;
      assert v in MineOn(votes, user, review, action);
    }
  }

  lemma RevokedCounter(t: Tables, user: Id, review: Id, action: VoteAction)
    requires review in t.reviews
    ensures Counter(RevokeVotes(t, user).reviews[review], action)
      == Counter(t.reviews[review], action) - if review in VotedBy(t.votes, user, action) then 1 else 0
  {
  }

  /** After the deletion each surviving counter is lower by one exactly where the user had voted that way. */
  lemma DeleteUserCounters(t: Tables, user: Id, review: Id, action: VoteAction)
    requires user in t.users && review in DeleteUser(t, user).reviews
    ensures review in t.reviews && review !in GoneReviews(t, user)
    ensures Counter(DeleteUser(t, user).reviews[review], action)
      == Counter(t.reviews[review], action) - if MineOn(t.votes, user, review, action) == {} then 0 else 1
    ensures |Ballots(DeleteUser(t, user).votes, review, action)|
      == |Ballots(t.votes, review, action)| - |MineOn(t.votes, user, review, action)|
  {
    GoneAfterRevoke(t, user);
    BallotsAfterDelete(t, user, review, action);
    VotedByMine(t.votes, user, review, action);
    RevokedCounter(t, user, review, action);
  }

  /** A deletion adds to the drift of a surviving counter one for each vote of the user beyond the first. */
  lemma DeletionDrift(t: Tables, user: Id, review: Id, action: VoteAction)
    requires user in t.users && review in DeleteUser(t, user).reviews
    ensures review in t.reviews
    ensures Drift(DeleteUser(t, user), review, action)
      == Drift(t, review, action)
         + if MineOn(t.votes, user, review, action) == {} then 0 else |MineOn(t.votes, user, review, action)| - 1
  {
    DeleteUserCounters(t, user, review, action);
  }

  lemma GoneAfterRevoke(t: Tables, user: Id)
    ensures GoneItems(RevokeVotes(t, user), user) == GoneItems(t, user)
    ensures GoneReviews(RevokeVotes(t, user), user) == GoneReviews(t, user)
    ensures GoneVotes(RevokeVotes(t, user), user) == GoneVotes(t, user)
  {
    var m := RevokeVotes(t, user);
    assert m.reviews.Keys == t.reviews.Keys;
    assert forall r :: r in m.reviews ==>
      m.reviews[r].createdBy == t.reviews[r].createdBy && m.reviews[r].relatedItem == t.reviews[r].relatedItem;
  }

  /**
   One `IN (...)` decrement per action stays exact on a surviving review if and only if the user
   has at most one vote of each action there; the unique key is what guarantees it.
   */
  lemma DeleteUserExactIff(t: Tables, user: Id, review: Id)
    requires user in t.users && Exact(t) && review in DeleteUser(t, user).reviews
    ensures ExactRow(DeleteUser(t, user), review)
      <==> forall a: VoteAction :: |MineOn(t.votes, user, review, a)| <= 1
  {
    DeleteUserCounters(t, user, review, Up);
    DeleteUserCounters(t, user, review, Down);
    assert ExactRow(t, review);
    forall a: VoteAction
      ensures Counter(DeleteUser(t, user).reviews[review], a) == |Ballots(DeleteUser(t, user).votes, review, a)|
        <==> |MineOn(t.votes, user, review, a)| <= 1
    {
      DeleteUserCounters(t, user, review, a);
    }
  }

  lemma AtMostOne(votes: map<Id, Vote>, user: Id, review: Id, action: VoteAction)
    requires UniqueBallots(votes)
    ensures |MineOn(votes, user, review, action)| <= 1
  {
    var mine := MineOn(votes, user, review, action);
    if mine != {} {
      var v :| v in mine;
      assert mine == {v};
    }
  }

  lemma RowsAfterDelete(t: Tables, user: Id)
    requires user in t.users
    ensures var t' := DeleteUser(t, user);
      && t'.users == t.users - {user}
      && t'.items == t.items - GoneItems(t, user)
      && t'.reviews.Keys == t.reviews.Keys - GoneReviews(t, user)
      && t'.votes == t.votes - GoneVotes(t, user)
      && (forall r :: r in t'.reviews ==>
        t'.reviews[r].createdBy == t.reviews[r].createdBy && t'.reviews[r].relatedItem == t.reviews[r].relatedItem)
  {
    GoneAfterRevoke(t, user);
  }

  lemma DeleteUserReferential(t: Tables, user: Id)
    requires Referential(t) && UniqueBallots(t.votes) && UniqueReviews(t.reviews)
    ensures var t' := DeleteUser(t, user);
      && Referential(t') && UniqueBallots(t'.votes) && UniqueReviews(t'.reviews)
      && user !in t'.users
      && (user in t.users ==> t'.users == t.users - {user} && RemovedExactly(t, t', user))
      && (forall v ::
            v in t'.votes <==> v in t.votes && t.votes[v].createdBy != user && t.votes[v].relatedReview in t'.reviews)
  {
    if user in t.users {
      RowsAfterDelete(t, user);
      DeletionRemovesExactly(t, user);
    }
  }

  ghost predicate RemovedExactly(t: Tables, t': Tables, user: Id) {
    && (forall i :: i in t'.items <==> i in t.items && t.items[i].createdBy != user)
    && (forall i :: i in t'.items ==> t'.items[i] == t.items[i])
    && (forall r ::
          r in t'.reviews <==>
            && r in t.reviews && t.reviews[r].createdBy != user
            && t.reviews[r].relatedItem in t.items && t.items[t.reviews[r].relatedItem].createdBy != user)
    && (forall r :: r in t'.reviews ==>
          t'.reviews[r].createdBy == t.reviews[r].createdBy && t'.reviews[r].relatedItem == t.reviews[r].relatedItem)
    && (forall v ::
          v in t'.votes <==> v in t.votes && t.votes[v].createdBy != user && t.votes[v].relatedReview in t'.reviews)
    && (forall v :: v in t'.votes ==> t'.votes[v] == t.votes[v])
  }

  /**
   What a deletion removes and what it leaves, row by row: the account, its items, the reviews it
   wrote and those of its items, its votes and those on the removed reviews; owners and items of the
   rows that stay are the same.
   */
  lemma DeletionRemovesExactly(t: Tables, user: Id)
    requires Referential(t) && user in t.users
    ensures DeleteUser(t, user).users == t.users - {user} && RemovedExactly(t, DeleteUser(t, user), user)
  {
    RowsAfterDelete(t, user);
  }

  /** Deleting a user leaves sound tables. */
  lemma DeleteUserSound(t: Tables, user: Id)
    requires Sound(t)
    ensures Sound(DeleteUser(t, user))
  {
    DeleteUserReferential(t, user);
    if user in t.users {
      forall r | r in DeleteUser(t, user).reviews ensures ExactRow(DeleteUser(t, user), r) {
        AtMostOne(t.votes, user, r, Up);
        AtMostOne(t.votes, user, r, Down);
        assert forall a: VoteAction :: |MineOn(t.votes, user, r, a)| <= 1 by {
          forall a: VoteAction ensures |MineOn(t.votes, user, r, a)| <= 1 { AtMostOne(t.votes, user, r, a); }
        }
        DeleteUserExactIff(t, user, r);
      }
    }
  }

  // --------------------------------------------------------- nightly refresh

  predicate Drifted(t: Tables, review: Id)
    requires review in t.reviews
  {
    || t.reviews[review].upVotes != |Ballots(t.votes, review, Up)|
    || t.reviews[review].downVotes != |Ballots(t.votes, review, Down)|
  }

  function Recounted(t: Tables, review: Id): Review
    requires review in t.reviews
  {
    t.reviews[review].(upVotes := |Ballots(t.votes, review, Up)|, downVotes := |Ballots(t.votes, review, Down)|)
  }

  /** The cron statement: overwrite both counters of every row whose counters differ from the recount. */
  function RefreshVotes(t: Tables): Tables {
    t.(reviews := map r | r in t.reviews :: if Drifted(t, r) then Recounted(t, r) else t.reviews[r])
  }

  /** The refresh repairs any drift, writes to drifted rows only, and a second run does nothing. */
  lemma RefreshRepairs(t: Tables)
    ensures var t' := RefreshVotes(t);
      && Exact(t')
      && t' == t.(reviews := t'.reviews) && t'.reviews.Keys == t.reviews.Keys
      && (forall r :: r in t.reviews ==> (t'.reviews[r] != t.reviews[r] <==> Drifted(t, r)))
      && (forall r :: r in t.reviews ==>
        t'.reviews[r].createdBy == t.reviews[r].createdBy && t'.reviews[r].relatedItem == t.reviews[r].relatedItem)
      && RefreshVotes(t') == t'
      && (Exact(t) <==> t' == t)
  {
    var t' := RefreshVotes(t);
    forall r | r in t'.reviews ensures ExactRow(t', r) && !Drifted(t', r) {
      forall a: VoteAction ensures Counter(t'.reviews[r], a) == |Ballots(t'.votes, r, a)| {
        match a case Up => case Down =>
      }
    }
    assert RefreshVotes(t').reviews == t'.reviews;
    if Exact(t) {
      forall r | r in t.reviews ensures !Drifted(t, r) {
        assert ExactRow(t, r);
        assert Counter(t.reviews[r], Up) == |Ballots(t.votes, r, Up)|;
        assert Counter(t.reviews[r], Down) == |Ballots(t.votes, r, Down)|;
      }
      assert t'.reviews == t.reviews;
    }
  }

  // ---------------------------------------------------------- adding rows

  datatype CreateError = NotFound | OwnItem | AlreadyReviewed

  /** `ReviewService.createOne`: nobody reviews their own item or the same item twice. */
  function CreateReview(t: Tables, newId: Id, user: Id, item: Id): Result<Tables, CreateError> {
    if item !in t.items then Err(NotFound)
    else if t.items[item].createdBy == user then Err(OwnItem)
    else if exists r :: r in t.reviews && t.reviews[r].createdBy == user && t.reviews[r].relatedItem == item
    then Err(AlreadyReviewed)
    else Ok(t.(reviews := t.reviews[newId := Review(user, item, 0, 0)]))
  }

  predicate ReviewAllowed(t: Tables, user: Id, item: Id) {
    && item in t.items && t.items[item].createdBy != user
    && forall r :: r in t.reviews ==> !(t.reviews[r].createdBy == user && t.reviews[r].relatedItem == item)
  }

  /** Which error a review gets: an unknown item first, then one's own, then a second review. */
  lemma CreateReviewAnswers(t: Tables, newId: Id, user: Id, item: Id)
    ensures var reply := CreateReview(t, newId, user, item);
      && (reply.Ok? <==> ReviewAllowed(t, user, item))
      && (reply == Err(NotFound) <==> item !in t.items)
      && (reply == Err(OwnItem) <==> item in t.items && t.items[item].createdBy == user)
      && (reply == Err(AlreadyReviewed) <==>
            && item in t.items && t.items[item].createdBy != user
            && exists r :: r in t.reviews && t.reviews[r].createdBy == user && t.reviews[r].relatedItem == item)
      && (reply.Ok? ==> reply.value == t.(reviews := t.reviews[newId := Review(user, item, 0, 0)]))
  {
  }

  /** Nobody has reviewed an item of their own. */
  ghost predicate NoSelfReviews(t: Tables) {
    forall r :: r in t.reviews && t.reviews[r].relatedItem in t.items ==>
      t.items[t.reviews[r].relatedItem].createdBy != t.reviews[r].createdBy
  }

  /** A new review starts unvoted, is not of the author's own item, and is the author's only one of the item. */
  lemma CreateReviewSound(t: Tables, newId: Id, user: Id, item: Id)
    requires Sound(t) && newId !in t.reviews && user in t.users
    requires CreateReview(t, newId, user, item).Ok?
    ensures var t' := CreateReview(t, newId, user, item).value;
      && Sound(t')
      && t' == t.(reviews := t'.reviews) && t'.reviews == t.reviews[newId := t'.reviews[newId]]
      && t'.reviews[newId].createdBy == user && t'.reviews[newId].relatedItem == item
      && (NoSelfReviews(t) ==> NoSelfReviews(t'))
  {
    var t' := CreateReview(t, newId, user, item).value;
    forall r | r in t'.reviews ensures ExactRow(t', r) {
      if r == newId {
        forall a: VoteAction ensures Counter(t'.reviews[r], a) == |Ballots(t'.votes, r, a)| {
          assert Ballots(t.votes, r, a) == {};
          match a case Up => case Down =>
        }
      } else {
        assert ExactRow(t, r);
      }
    }
  }
}
