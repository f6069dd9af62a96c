# RateWise: verified model

RateWise is a NestJS/GraphQL backend where users create items, review them and vote on reviews. This
project models the parts of it that carry state or protocols of their own and proves what they keep:

- **Votes and counters** (`Ledger`, `VoteTransactions`, `VoteRuns`, `VoteService`). `review.upvotes` and
  `review.downvotes` cache the `vote` table. `Ledger` gives each operation as one step on whole
  tables; `VoteTransactions` runs `voteReview` and `deleteVote` statement by statement, interleaved,
  under READ COMMITTED with row locks and a non-blocking advisory lock whose keys may collide;
  `VoteRuns` says that a request nobody opposes goes through and what it then changes;
  `VoteService` is the service code on one connection, tied to the `Ledger` steps.
- **Keyset pages** (`Keyset`, `Pagination`, `PageWalks`, `Cursor`, `Json`, `Utf8`, `Base64`, `JsText`).
  The page query, whole walks by text cursor, over a fixed table and over one that changes between
  requests, and the cached variant with its look-up and fill-in loops. Text is UTF-16, as in
  JavaScript, so cursors are proved for every string, unpaired surrogates included.
- **The record cache** (`RecordCache`). Copies leave the database, travel with a request or a queued
  job, and land later; entries expire or are evicted. One timed machine covers users and items behind
  `findOneByIdOrThrowCached` and the records of cached pages.
- **Sessions** (`SessionRegistry`, `SessionRuns`, `SessionCap`, `SessionsService`). Record, relation
  and index in Redis under every interleaving of sign-in, sign-out, sign-out-all, expiry listener,
  guard and clean-up, where each single delete may be reordered or lost; and what each flow comes to
  when it runs alone.
- **Tokens and mailed links** (`Tokens`, `AuthService`). Second-based expiry against millisecond
  TTLs, and what the links do across blacklist, database and sessions.
- **Tags** (`ArrayText`). Postgres array output and the reader `customArrayTransformer.from`.

The environment enters as small specifications: Postgres statements are atomic and read committed
data plus their own transaction's writes, an UPDATE or DELETE waits for the transaction that wrote
the row, unique keys, foreign keys, CHECKs and cascades hold, new ids are new; Redis runs single
commands and MULTI blocks atomically; JWT signing is an oracle; clocks are parameters.

Where documentation and code differ, the code is modelled: src/votes/graphql/docs/voteReview.docs.ts:21
speaks of `SELECT ... FOR UPDATE` on the user row, while the code takes an advisory try-lock on a hash
of user and review (src/votes/votes.service.ts:38-41).

Three properties turned out to need a condition, and each has its exact one: the `IN (...)` decrement
of a deletion is exact if and only if the user has at most one vote per action and review
(`Ledger.DeleteUserExactIff`); a blacklisted token still verifies if and only if the check straddles
its expiry (`Tokens.StraddlesExpiryIff`, with an instance in `Tokens.BlacklistedTokenCanPass`); tags
are read back as written if and only if none has a comma, a double quote or a backslash
(`ArrayText.ReadsBackIff`). Two bounds are proved to be met: cache staleness
(`RecordCache.BoundIsMet`) and the session cap (`SessionCap.CapIsReached`).

## Model

| member | source | states |
|---|---|---|
| Ledger.RemoveVoteSound | src/votes/votes.service.ts:44-56 | deleting a vote row together with the decrement of its review keeps every counter exact, both unique keys and every reference |
| Ledger.AddVoteSound | src/votes/votes.service.ts:75-85 | saving a vote with the increment keeps them too, given that the user has no vote on the review |
| Ledger.CastVoteSound | src/votes/votes.service.ts:58-86 | casting keeps the tables sound and sets exactly the caller's entry of the poll: the old vote is replaced, repeated votes and unknown reviews change nothing, everyone else's votes stay |
| Ledger.WithdrawVoteSound | src/votes/votes.service.ts:90-106 | withdrawing keeps the tables sound and takes exactly the caller's entry out of the poll |
| Ledger.VotingOnlyRow | src/votes/votes.service.ts:44-106 | voting changes nothing but the counters of that review and the voter's rows on it |
| Ledger.VotingKeepsDrift | src/votes/votes.service.ts:44-106 | from any tables, however wrong their counters, casting and withdrawing leave the distance of every counter from the votes it counts as it was |
| Ledger.DeleteUserCounters | src/orchestrators/user-deletion/user-deletion.service.ts:16-21 | on each surviving review the counter drops by one where the user had voted that way and stays elsewhere, while the vote table loses exactly the user's votes |
| Ledger.DeleteUserExactIff | src/votes/votes.service.ts:128-147 | one set-based decrement per action leaves a surviving review exact if and only if the user has at most one vote of each action on it |
| Ledger.DeletionDrift | src/votes/votes.service.ts:128-147 | from any tables, a deletion adds to that distance one for each vote of the user on the review and of the action beyond the first |
| Ledger.AtMostOne | db/migrations/1774836425457-CreateVoteTable.ts:17 | the unique key on (created_by, related_review) guarantees that condition |
| Ledger.DeletionRemovesExactly | db/migrations/1774836425457-CreateVoteTable.ts:15-17 | row by row: the account goes, its items, the reviews it wrote and those of its items, its votes and those on the removed reviews; everything else stays, with the same owner and item |
| Ledger.DeleteUserReferential | db/migrations/1774836425457-CreateVoteTable.ts:15-17 | in addition every item, review and vote left refers to existing rows, and both unique keys hold |
| Ledger.DeleteUserSound | src/orchestrators/user-deletion/user-deletion.service.ts:16-25 | deleting a user leaves sound tables |
| Ledger.RefreshRepairs | src/reviews/reviews.service.ts:45-65 | from any drift the nightly statement makes all counters exact, writes exactly the drifted rows, touches no vote or reference, and does nothing the second time |
| Ledger.CreateReviewSound | src/reviews/reviews.service.ts:89-110 | a new review starts unvoted in sound tables, changes no other row, is the author's only one of the item, and nobody comes to review their own item |
| Ledger.CreateReviewAnswers | src/reviews/reviews.service.ts:90-109 | a review is created exactly for an existing item of somebody else that the author has not reviewed; an unknown item, one's own item and a second review are refused in this order, each with its own error |
| VoteTransactions.StatementKeeps | src/votes/votes.service.ts:58-106 | each statement leaves its open transaction consistent with the committed tables; the try-lock gets a free lock and ends the request otherwise; a statement can fail only because the review or the account is gone, never on the counter CHECK or the unique vote key |
| VoteTransactions.CommitIsOneStep | src/votes/votes.service.ts:58-106 | the pending writes of a lock winner amount, at commit, to the whole request done in one step on the committed tables |
| VoteTransactions.LoserChangesNothing | src/votes/votes.service.ts:61-66 | whoever fails to get the lock changes nothing |
| VoteTransactions.OthersSurviveCommit | src/votes/votes.service.ts:29-42 | a commit invalidates nothing that another open transaction has read or written |
| VoteTransactions.DeletionKeeps | src/orchestrators/user-deletion/user-deletion.service.ts:16-21 | deleting a user beside other users' open votes keeps them all consistent |
| VoteTransactions.StepKeeps | src/votes/votes.service.ts:29-111 | every event keeps the invariant and changes the committed tables either not at all or by exactly the operation it logs |
| VoteTransactions.RunsAreSerial | src/votes/votes.service.ts:29-111 | every interleaved run, colliding lock keys and requests of accounts already deleted included, commits what its lock winners commit when run one at a time in commit order |
| VoteTransactions.CommittedStateIsSound | src/votes/votes.service.ts:58-147 | in every reachable committed state of runs mixing votes, reviews, refreshes and deletions, counters are exact, ballots unique and references valid |
| VoteTransactions.CountersNeverNegative | db/migrations/1774833858910-CreateReviewTable.ts:18-19 | the counters a transaction has written are never negative, not even between the halves of a vote switch |
| VoteTransactions.WaitsOnlyForRow | src/reviews/reviews.service.ts:143-179 | a voting transaction only ever waits for the one that has updated the same review |
| VoteTransactions.NeverStuck | src/votes/votes.service.ts:58-106 | no deadlock: of any open transactions one can run, and running brings it closer to its end |
| VoteRuns.TryLockAnswers | src/votes/votes.service.ts:29-42 | the try-lock never waits: without another holder of the same hash the transaction holds it and goes on, with one it is done and has written nothing; nobody else is affected |
| VoteRuns.Completes | src/votes/votes.service.ts:58-106 | from any of its statements, a transaction that no one opposes commits exactly the change it was asked for, by its own events alone |
| VoteRuns.VoteIsCast | src/votes/votes.service.ts:58-88 | a vote that no one opposes goes through from first statement to commit: the poll gets exactly this entry, the new row has the generated id, and a vote already cast this way changes nothing |
| VoteRuns.VoteIsWithdrawn | src/votes/votes.service.ts:90-111 | so does a withdrawal, and the poll loses exactly this user's entry |
| VoteRuns.ChangesCanRun | src/reviews/reviews.service.ts:44-65 | the refresh can run in every reachable state, a deletion whenever no vote of the user is open and none has written, additions whenever their ids are new |
| VoteRuns.AdditionsAdd | src/reviews/reviews.service.ts:89-110 | adding an account, an item or an allowed review adds that row and changes nothing else |
| VoteService.Services.IncrementVotesTx | src/reviews/reviews.service.ts:143-158 | against the votes it counts, one counter of one review moves up by one and no other counter moves; an unknown id moves none |
| VoteService.Services.DecrementVotesTx | src/reviews/reviews.service.ts:164-179 | it moves down by one, or the call fails without effect exactly when the CHECK would be violated |
| VoteService.Services.DecrementVotesInTx | src/reviews/reviews.service.ts:185-201 | against the votes they count, the listed counters move down by one, however often a review is listed, and no other counter moves; or the call fails without effect, exactly when a listed one is at zero |
| VoteService.Services.RefreshReviewVotes | src/reviews/reviews.service.ts:45-65 | leaves the tables of the refresh step, all counters exact |
| VoteService.Services.DeleteVoteAndUpdateReviewTx | src/votes/votes.service.ts:44-56 | removes the vote and its count, and can fail only on a counter that is zero already |
| VoteService.Services.VoteReview | src/votes/votes.service.ts:58-88 | error for an unknown review, nothing without the lock, otherwise exactly the casting step on any table with unique votes, drifted counters included; fails on the CHECK exactly when the old vote's counter is at zero, and on the foreign key for an account that is gone, and then rolls back; sound tables stay sound |
| VoteService.Services.DeleteVote | src/votes/votes.service.ts:90-111 | likewise for withdrawing, and the answer says whether a vote was removed |
| VoteService.Services.RevokeUserVotesOnReviewsTx | src/votes/votes.service.ts:128-147 | the up/down split and its two updates equal the set-based revocation, and fail exactly when one of them would take a counter below zero |
| VoteService.Services.DeleteOne | src/orchestrators/user-deletion/user-deletion.service.ts:16-25 | revocation and cascade happen together, exactly for existing users whose revocation passes, hence for every user of sound tables, which stay sound; otherwise there is an error and no change; if the eviction after the commit fails the account is gone, the cache entry stays and the caller gets an error |
| VoteService.SoundIsNotRefused | db/migrations/1774833858910-CreateReviewTable.ts:18-19 | on sound tables the CHECK refuses no withdrawal or switch of a vote |
| VoteService.SoundIsRevocable | db/migrations/1774833858910-CreateReviewTable.ts:18-19 | nor any revocation |
| VoteService.RefusedIffNegative | db/migrations/1774833858910-CreateReviewTable.ts:18-19 | on valid counters the CHECK refuses exactly the votes and withdrawals that would leave a negative counter |
| VoteService.RevocableIffNotNegative | db/migrations/1774833858910-CreateReviewTable.ts:18-19 | and exactly such revocations |
| VoteService.RevokeStaysValid | src/votes/votes.service.ts:135-146 | no counter falls below zero after the first nor after the second update of a revocation |
| Keyset.TextLessIff | src/pagination/pagination.service.ts:82 | ids are ordered by the first unit that differs, a proper prefix first |
| Keyset.AscendsInTime | src/pagination/pagination.service.ts:80-83 | a listing ascends in creation time, and in the id among rows of one instant |
| Keyset.KeysAreRows | src/pagination/pagination.service.ts:69-73 | the keys paged through are the creation times and ids of exactly the matching rows |
| Keyset.ListingUnique | src/pagination/pagination.service.ts:80-83 | (createdAt, id) order leaves one possible listing of a set of rows |
| Keyset.PageSplits | src/pagination/pagination.service.ts:61-86 | a page is a prefix of the sorted rows beyond the cursor; with a next page it is full and the rest is what lies beyond its last key, without one it is all of them |
| Keyset.WalkIsSortedTable | src/pagination/pagination.service.ts:61-86 | on a fixed table following the last key ends and concatenates to the sorted table, all pages full but the last |
| Keyset.LiveWalkAscends | src/pagination/pagination.service.ts:74-83 | whatever is inserted or deleted between pages, keys strictly ascend over the whole walk |
| Keyset.LiveWalkComplete | src/pagination/pagination.service.ts:74-83 | a finished walk has returned every key that was there all along |
| Keyset.WalkOverChanges | src/pagination/pagination.service.ts:61-86 | so no record comes twice, and every record that matched in each snapshot comes |
| Pagination.PositionOfCursor | src/pagination/cursor/decode-cursor.ts:3-6 | the position decoded from a row's cursor is that row's key |
| Pagination.PositionAnswers | src/pagination/pagination.service.ts:128 | no cursor and a falsy one start at the top, one that does not decode is an error of its own, and otherwise the position is the time and id in it, or an error if the database reads either of them not |
| Pagination.ServiceCursorsCarry | src/pagination/pagination.service.ts:84-85 | the cursors handed out stand for their rows, for every table |
| Pagination.FirstCopyStays | src/pagination/queues/pagination-cache.producer.ts:14-20 | however often and by whomever records are enqueued, a key keeps the copy that was queued first, and exactly the enqueued keys are queued |
| Pagination.PaginationService.FetchRecords | src/pagination/pagination.service.ts:92-96 | finds exactly the listed ids that exist |
| Pagination.PaginationService.GetFromCache | src/pagination/pagination.service.ts:103-121 | position i holds the cached record of page[i] or a hole, and the ids not in cache are those of the holes |
| Pagination.PaginationService.CreatePaginationCached | src/pagination/pagination.service.ts:123-169 | position by position the cached record, or else the fetched one, or nothing, under its own cursor; the queue gains exactly the records of the page that were not cached and exist, with the fetched rows, and keeps what it had |
| Pagination.PaginationService.CreatePagination | src/pagination/pagination.service.ts:172-203 | position by position the fetched record or nothing, under its own cursor, in query order; the extra row announces a next page and is dropped |
| PageWalks.AnyCacheSameFrame | src/pagination/pagination.service.ts:123-203 | whatever is in the cache, and even from different states of the table, both variants give the same cursors, count and next-page flag |
| PageWalks.CachedIsUncachedIff | src/pagination/pagination.service.ts:123-203 | they give the same records, up to date serialisation, if and only if each cached id of the page is in the database with that very row |
| PageWalks.CachedRefinesUncached | src/pagination/pagination.service.ts:123-203 | with a coherent cache that is so, and position i holds the row with the i-th id of the page |
| PageWalks.OnlyMissesEnqueued | src/pagination/pagination.service.ts:150-156 | a page enqueues a key that is not queued if and only if it is that of a record of the page which was not cached and exists, with the fetched row; queued jobs are kept |
| PageWalks.SnapshotAnswer | src/pagination/pagination.service.ts:40-86 | on one snapshot, uncached or through a coherent cache, totalCount is the number of matching rows, and every node and edge holds a matching record with its key and cursor |
| PageWalks.ClientWalkIsLiveWalk | src/pagination/pagination.service.ts:123-203 | clients that pass on the last edge's text cursor, through pages of either variant and any cache, walk exactly as if they passed keys |
| PageWalks.WalkListsTable | src/pagination/pagination.service.ts:123-203 | a finished walk over an unchanged table, cached or not, shows the cursors of the matching rows, sorted, each once |
| PageWalks.WalkEnds | src/pagination/pagination.service.ts:135-136 | no walk over an unchanged table takes more requests than there are matching rows, plus one |
| PageWalks.WalkCanFinish | src/pagination/pagination.service.ts:135-136 | from the top or any row's cursor and for any limit, a client who keeps following reaches a last page |
| PageWalks.WalkOverChangingTable | src/pagination/pagination.service.ts:61-86 | a walk by text cursors over a changing table, through pages of either variant and any cache, is strictly ascending, repeats no id and misses no record that matched throughout |
| Cursor.CursorRoundTrip | src/pagination/cursor/encode-cursor.ts:1-4 | decoding an encoded cursor gives back both strings, for all JavaScript strings |
| Cursor.CursorInjective | src/pagination/cursor/encode-cursor.ts:1-4 | different positions have different cursors |
| Json.PairParses | src/pagination/cursor/decode-cursor.ts:5 | parsing the stringified pair gives the object with the two strings, through JSON escaping (section 7 of RFC 8259) |
| Utf8.RoundTrip | src/pagination/cursor/decode-cursor.ts:4 | UTF-8 decoding inverts encoding on well-formed text (section 3 of RFC 3629) |
| Utf8.UnitForm | src/pagination/cursor/encode-cursor.ts:3 | a code unit is written in the form of the table of RFC 3629, section 3: shortest length, lead and continuation bytes, and its value |
| Utf8.PairForm | src/pagination/cursor/encode-cursor.ts:3 | a surrogate pair is written as the four bytes of its scalar value |
| Base64.GroupIsOneNumber | src/pagination/cursor/encode-cursor.ts:3 | the four digits of a group and its three bytes are the same 24-bit number (section 4 of RFC 4648) |
| Base64.EncodedLength | src/pagination/cursor/encode-cursor.ts:3 | every three bytes or part of three take four characters, padding included |
| Base64.RoundTrip | src/pagination/cursor/decode-cursor.ts:4 | base64 decoding inverts encoding with padding on all bytes (section 4 of RFC 4648) |
| RecordCache.StepKeeps | src/pagination/queues/pagination-cache.consumer.ts:25-27 | every held, queued or cached copy was the database value when it was read, lies under its own key, and landed in time |
| RecordCache.TableEvents | src/users/users.service.ts:117-151 | saving and removing set what the table has, reading copies it, evicting drops the entry |
| RecordCache.QueuedIsCached | src/pagination/queues/pagination-cache.producer.ts:14-20 | a record read and enqueued is in the cache once the worker has run, in the copy queued first, and no job is left |
| RecordCache.BoundedStaleness | src/users/users.service.ts:88-102 | a value served from cache was the database value at some instant of the last ttl + delay |
| RecordCache.CachedPageIsRecent | src/pagination/pagination.service.ts:103-148 | for records that change: position i of a cached page holds a value that the record with the i-th id had within the last ttl + delay, its current value if it was not cached, and nothing only if it is gone |
| RecordCache.BoundIsMet | src/users/users.service.ts:117-130 | that bound cannot be lowered: a read overtaken by saveOne can put the old row back after the eviction |
| RecordCache.SettledUntilWritten | src/users/users.service.ts:117-130 | when every stale copy is too late to land and every stale entry has expired, the cache serves the current row until the next write |
| RecordCache.StaleUntilWrittenIff | src/users/users.service.ts:88-102 | before the next write the record can be served stale if and only if that is not so |
| RecordCache.SaveSettlesIff | src/users/users.service.ts:117-130 | a save with its eviction brings this about if and only if no other row of the record is held by a request or carried by a job that can still land |
| RecordCache.ImmutableRowsNeverStale | src/items/items.service.ts:84-97 | for rows that are only inserted and deleted, the cache agrees with the live table in every reachable state |
| RecordCache.CachedPagesAgree | src/pagination/pagination.service.ts:123-169 | so cached pages of items and votes are the uncached ones, whatever jobs were delayed, merged, repeated or lost |
| RecordCache.RecordService.FindOneByIdOrThrowCached | src/users/users.service.ts:88-102 | a hit is returned and changes nothing; a miss reads, sets and returns the row; an unknown or invalid id is an error and caches nothing |
| RecordCache.RecordService.SaveOne | src/users/users.service.ts:117-130 | saves the row, then drops exactly its entry, and says exactly when the record is settled by it; a key violation changes nothing; a failed eviction leaves the row saved, the entry in place and an error |
| RecordCache.RecordService.Process | src/pagination/queues/pagination-cache.consumer.ts:25-27 | the worker sets the queued value under the job's key |
| SessionRegistry.AnyOrder | src/sessions/sessions.service.ts:102-111 | deletes issued together have one outcome, in whatever order and however often they arrive |
| SessionRegistry.StepKeeps | src/sessions/sessions.service.ts:52-173 | the invariant behind the next results holds through every step of every process |
| SessionRegistry.IndexedHasRelation | src/sessions/sessions.service.ts:52-173 | an indexed session has its relation, or a delete that will take it out of the index is under way, or that delete was lost to a Redis failure |
| SessionRegistry.QuietIndexIsRelated | src/sessions/events/sessions.events.ts:20-44 | without failures and with nothing in flight every indexed session has its relation |
| SessionRegistry.GrantsUseUp | src/auth/guards/auth.guard.ts:53-59 | each request of a revoked session that is still granted had read the index before |
| SessionRegistry.RevokedForGood | src/sessions/sessions.service.ts:74-92 | a session that has left the index never returns, even if its record is saved again and whatever fails, and is granted no request but those already past the index check |
| SessionRegistry.SignOutAllIsForGood | src/sessions/sessions.service.ts:99-114 | deleting the index revokes in this way every session of the user created by then, listed or not |
| SessionRegistry.SignOutIsForGood | src/sessions/sessions.service.ts:144-153 | and taking one session out of the index revokes that session |
| SessionRegistry.DeletedForGood | src/auth/guards/auth.guard.ts:44-51 | sessions of a deleted account are granted nothing but the requests that had found it, even if the session clean-up after the deletion fails |
| SessionRuns.SignOutAlone | src/sessions/sessions.service.ts:144-153 | left alone, a sign-out or clean-up ends with exactly the session's record, relation and index entry gone |
| SessionRuns.SignOutAllAlone | src/sessions/sessions.service.ts:99-114 | a sign-out-all with exactly the user's index and the records and relations of its members gone |
| SessionRuns.ExpiryAlone | src/sessions/events/sessions.events.ts:20-44 | the listener with exactly relation and index entry of a known session gone |
| SessionRuns.GuardAlone | src/auth/guards/auth.guard.ts:43-71 | the guard grants exactly if account, index entry and relation are there, changing nothing, and otherwise removes what is left of the session |
| SessionRuns.SignInAlone | src/auth/auth.service.ts:139-144 | a sign-in below the cap adds exactly one relation and one index entry and drops the previous record; at the cap it changes nothing |
| SessionRuns.SignUpAlone | src/auth/auth.service.ts:120-129 | a sign-up does so for the account it makes |
| SessionRegistry.SessionCap | src/auth/auth.service.ts:120-147 | with at most k sign-ins or sign-ups of a user in flight the index never exceeds max - 1 + k |
| SessionCap.CapIsReached | src/auth/auth.service.ts:139-144 | for every max and k some run has exactly that many sessions |
| SessionsService.SecondPartIs | src/sessions/events/sessions.events.ts:23-24 | what the listener takes from a key lies between the first colon and the next or the end; without a colon, or with nothing there, the key is malformed |
| SessionsService.SidOfSessionKey | src/sessions/events/sessions.events.ts:23-24 | the listener recovers from a session key exactly the ids that are not empty and hold no colon |
| SessionsService.ClosingCloses | src/sessions/sessions.service.ts:144-153 | the deletes of a sign-out take away exactly the session's record, relation and index entry; it is dangling, and no other session is affected |
| SessionsService.ForgettingForgets | src/sessions/events/sessions.events.ts:30-43 | those of the listener take away exactly relation and index entry, and no index names the session any more |
| SessionsService.SweepingSweeps | src/sessions/sessions.service.ts:99-114 | those of a sign-out-all take away exactly the index and the listed records and relations; every session of the user is dangling and other users are unaffected |
| SessionsService.SessionsService.SetMembers | src/redis/client/redis.client.adapter.ts:53-55 | the members of a user's index, each once |
| SessionsService.SessionsService.Create | src/sessions/sessions.service.ts:164-173 | exactly the old record goes, one relation and one index entry come, the new session is not dangling, and no other session starts or stops being so |
| SessionsService.SessionsService.Destroy | src/sessions/sessions.service.ts:144-153 | removes record, relation and index entry, and nothing else |
| SessionsService.SessionsService.TrySessionCleanup | src/sessions/sessions.service.ts:52-67 | the same for a session found dangling |
| SessionsService.SessionsService.DeleteAll | src/sessions/sessions.service.ts:99-114 | removes the index and, for each listed member, record and relation; returns how many there were |
| SessionsService.SessionsService.DestroyAll | src/sessions/sessions.service.ts:121-129 | and the record of the current session on top |
| SessionsService.SessionsService.IsDangling | src/sessions/sessions.service.ts:74-92 | true exactly when index entry or relation is missing |
| SessionsService.SessionsService.HandleRemovedSession | src/sessions/events/sessions.events.ts:20-44 | ignores other keys, rejects malformed ones, and for an expired session removes relation and index entry of the user it belonged to |
| SessionsService.SessionsService.CanActivate | src/auth/guards/auth.guard.ts:23-73 | of the requests that need a session, grants exactly those of existing accounts whose session is in index and relation; a rejected session is cleaned up completely |
| SessionsService.SessionsService.SignIn | src/auth/auth.service.ts:139-144 | refused exactly at the cap, without effect; otherwise exactly one session is added, within the cap when taken one at a time, and every other session is as usable as before |
| Tokens.EntryOutlivesToken | src/tokens/ttl/calculate-token-ttl.ts:1-5 | the blacklist entry expires no earlier than the token and less than one second later, or never; Redis refuses it exactly one second or more past expiry |
| Tokens.BlacklistsOneKey | src/tokens/tokens.service.ts:41-47 | blacklisting touches no other token's entry, and a token without expiry is blacklisted for ever |
| Tokens.BlacklistedForGood | src/tokens/tokens.service.ts:41-65 | from the call of blacklist on, accepted by Redis or not and whatever is blacklisted later, the token is rejected at every instant |
| Tokens.StraddlesExpiryIff | src/tokens/tokens.service.ts:49-65 | a verification whose two clock readings differ accepts a blacklisted token if and only if the first is before its expiry and the second past the instant of the entry; they are then at least two milliseconds apart |
| Tokens.SecondUseIff | src/tokens/tokens.service.ts:67-71 | a second verification of a token that is being consumed succeeds if and only if it comes before the first use is stored, and before expiry |
| Tokens.BlacklistedTokenCanPass | src/tokens/tokens.service.ts:49-65 | there is such a verification, two milliseconds long |
| Tokens.GeneratedVerifiesIff | src/tokens/tokens.service.ts:73-92 | a generated token verifies to its claims if and only if the payload has the expected data and no other purpose, the lifetime is not over and the id is not blacklisted |
| Tokens.GeneratedClaims | src/tokens/tokens.service.ts:83-87 | tokens are generated exactly for payloads without dates of their own; whoever verifies one gets every value of the payload, purpose and fresh id where it brings none, and the two dates |
| Tokens.OtherServicesRefuse | src/tokens/tokens.service.ts:57-58 | a service with another secret or purpose rejects it |
| Tokens.TokensService.Blacklist | src/tokens/tokens.service.ts:41-47 | stores the entry or reports that the token is past its last second; either way it never verifies again |
| Tokens.TokensService.VerifyToken | src/tokens/tokens.service.ts:49-65 | which answer each token gets: signature and expiry first, then expected data, purpose and blacklist |
| Tokens.TokensService.Consume | src/tokens/tokens.service.ts:67-71 | a consumed token does not verify again; a token that fails changes nothing |
| AuthService.SpentByBlacklist | src/auth/auth.service.ts:98 | blacklisting what was verified makes the link unusable from that instant |
| AuthService.AuthService.VerifyAccount | src/auth/auth.service.ts:69-90 | activates exactly pending accounts, once per link; an error leaves account and blacklist alone, except that a failed cache eviction leaves the account active and the link unspent |
| AuthService.AuthService.DeleteAccount | src/auth/auth.service.ts:92-107 | on any tables the link is spent first; account and content go exactly if Redis took the entry, the account exists and no counter to be lowered is at zero, and nothing goes otherwise; with the cache entry evicted all sessions go too, without it the caller gets an error and the sessions stay |
| AuthService.AuthService.SignOutAllPublic | src/auth/auth.service.ts:178-188 | an existing user's link works once, revokes all sessions of that user and of nobody else, and reports their number |
| AuthService.AuthService.SignUp | src/auth/auth.service.ts:120-129 | a taken name or address changes nothing; otherwise a pending account with one usable session, and every other session is as usable as before |
| AuthService.AuthService.SignIn | src/auth/auth.service.ts:131-147 | wrong credentials and a full index change nothing and are told apart; otherwise exactly one usable session more, within the cap, and every other session is as usable as before |
| ArrayText.WrittenBareIff | db/migrations/1774832389683-CreateItemTable.ts:18 | Postgres writes a tag without quotes exactly if it is not empty, does not spell null and holds no quote, backslash, brace, comma or space |
| ArrayText.EscapesUndone | db/migrations/1774832389683-CreateItemTable.ts:18 | a reader that knows escapes gets every tag back, so what is lost is lost in the reader |
| ArrayText.ReadsDirectly | src/common/db/transformers/array.transformer.ts:12-14 | an absent value, the empty text and `{}` are no tags, and an array is taken as it is |
| ArrayText.SplitIsLossless | src/common/db/transformers/array.transformer.ts:19 | joining the parts with the separator gives the text back, and no part holds one |
| ArrayText.StripsEnds | src/common/db/transformers/array.transformer.ts:18-20 | at most one mark is stripped at each end, and only there |
| ArrayText.ElementUnquotes | src/common/db/transformers/array.transformer.ts:20 | stripping one quote at each end of a written element gives the tag if and only if it has no quote or backslash |
| ArrayText.SplitJoined | src/common/db/transformers/array.transformer.ts:17-19 | splitting at commas recovers the written elements when no tag has a comma |
| ArrayText.ReadsBackIff | src/common/db/transformers/array.transformer.ts:11-21 | for every list of tags, the empty one included, what Postgres writes is read back as it was if and only if no tag has a comma, a double quote or a backslash |
| ArrayText.CommaSplitsTag | src/common/db/transformers/array.transformer.ts:19 | a tag with one comma and nothing else to escape is read back as the two tags around the comma |
| ArrayText.CommaIsNotReadBack | src/common/db/transformers/array.transformer.ts:11-21 | the permitted tag `a,b` is one |

## Left out

- Interleaving of a user's deletion with that same user's open votes, and of the nightly refresh with open transactions that hold drifted rows: the deletion takes no advisory lock, so exact counters are not promised there; the refresh repairs any drift (`Ledger.RefreshRepairs`).
- Serialisation failures, connection loss and crash recovery of Postgres; a transaction may roll back at any point.
- `deleteVote` checks the review's existence before its transaction opens; the step model has it as the first statement, where it reads the same committed tables and holds nothing.
- Invalid UUIDs in votes and reviews: answered like unknown ids, which is what they are here.
- Falsy decoded cursors: `null`, `false` and the empty string are no cursor, as in the code; the number 0 is treated as a bad cursor.
- Node's base64 decoder beyond skipping characters that are no digits and stopping at padding; only its result on encoded cursors enters the results.
- Numbers in JSON keep their syntax but not their value; cursors only hold strings.
- `passwordHash` is stripped from users set by `findOneByIdOrThrowCached`; rows stand for the public fields.
- RecordCache.RecordService.SaveOne: the uniqueness of names and addresses enters as the database's answer, because it is a database constraint.
- RecordCache.BoundedStaleness: assumes that copies land within `delay`, because queue and network give no bound of their own.
- Session expiry times, cookie handling and the moment express-session saves a record: a record may be saved, expire or be reported at any time.
- The relation left behind when a create runs between the listing and the index delete of a sign-out-all, and the relation and index entry of a session replaced by `regenerate`: both stay in the model as in the code; the guard rejects the first, and the second still counts towards the cap.
- Role and status guards, moderation, password hashing and input validation: each is settled by one branch.
- Redis values other than the blacklist's '1' and keys evicted under memory pressure.
- Tokens.TokensService.Consume: runs one call at a time, because verification and blacklisting are separate commands; when two uses overlap is said by `Tokens.SecondUseIff`.
- Redis being unreachable for the token blacklist, or for a cache read or set; failed evictions and failed session deletes are modelled.
- Average ratings, seeding, resolvers, mail, logging, rate limits and configuration.
