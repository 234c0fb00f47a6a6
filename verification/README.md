# Verified model of a trip-sharing back end

This project models the stateful protocols behind a NestJS API for shared trips and communities, and proves what they
guarantee over whole runs: the chat write-ahead log on Redis streams, the limiters and the membership cache, login by
one-time code, the seats of a trip, progress through its stops, and community membership. Redis and Postgres appear as
plain structures with the semantics the code relies on: keys with an expiry, a stream with a consumer group and its
pending list, tables with unique keys. `dafny verify dfyconfig.toml` checks everything.

## How it is built

Each protocol comes in two forms that are proved equal.

* A specification on values: a state, a function for one request or one step, and runs of such steps. The theorems are
  about runs of any length.
* Where the program has an object whose methods update fields, a class with the same fields. Every method is proved to
  move the state as the specification function does, with the same branches and the same errors.

What users see is also stated apart from these functions, as exact conditions on the fields of rows, keys and answers:
who gets a seat, who is let in, whose message a row is, who reacted, who may answer an invite, and why a request is
refused.

| File | What it models |
|---|---|
| `Messages`, `ChatStream` | queued message, row, formatted message; the step machine of streams, consumer groups and workers that interleave, fail and crash between steps |
| `ChatDelivery`, `ChatLoss`, `ChatDrain` | what leaves the pending list and how, exactly which entries can still reach the table, clean runs, ticks of the worker |
| `ChatHistory`, `ChatEndToEnd` | cursor pages, walking back through them, and the way of a message from `queueMessage` to `getHistory`; reply snapshots |
| `Grouping`, `Reactions`, `ToggleRace` | the grouping loops, toggling reactions alone and overlapping, the batched load of a page |
| `ChatService` | the chat service and the flush worker as classes |
| `AccessCache`, `RoomMembers` | the room-access cache, with checks split into GET, query and SET; what the query finds in the tables of trips and communities |
| `Windows`, `RateLimit`, `RateOverlap`, `FixedWindow` | counting in windows of time; the sliding-window limiter with count and add apart; the fixed-window limiters |
| `Otp`, `OtpTimes`, `OtpBudget`, `OtpBounds`, `OtpAlone`, `OtpOverlap`, `OtpService` | the code, cooldown, attempts and lock keys of a phone, in milliseconds, under overlapping calls, every Redis command a step; the calls in flight and when keys die; budgets of guesses and lost counts; calls that do not overlap; runs that meet the bounds; the service |
| `TripSeats`, `TripRules`, `TripRaces`, `TripStore`, `TripServices` | the seat counter, participant rows and link of a trip, one request after another; its rules as exact conditions; requests that overlap; the table of all trips; the two services that write it |
| `StopProgress`, `StopRaces` | the status array of a member and its automatic advance; completions that overlap, as transactions with snapshots and row locks |
| `CommunityLedger`, `CommunityRules`, `CommunityRaces`, `CommunityOverlap`, `CommunityStore`, `CommunityServices`, `Slug` | members, counter and invites of a community, one request after another; its rules as exact conditions; requests that overlap, and what they break; the table of all communities; the service; slugs |
| `Common` | optional values, results, facts about sequences and maps |

## Findings

Where the code and its comments, or a natural reading of it, disagree, the model follows the code and says exactly when
the expected property holds. `k` is the largest number of calls in flight at once; with `k` 1, calls do not overlap.

* The worker's comment promises that entries of a failed insert are retried. `recoverPendingEntries` claims such entries
  and drops the answer of XCLAIM, and the only read asks for new entries. `LossHappens` is the run, `DeliveryIff` says
  which entries can still reach the table, and `EverythingNotLostIsRead` what is read after any run.
* Logins of one phone are not serialized. One code can let in `k` logins (`UsedOnceIff`). A login past the lock check
  succeeds after the lock is set (`LockedOutIff`). Up to 3`k` wrong guesses are compared with one code though nothing
  expires (`PerCode`, `WrongBoundMet`, `ThreeGuessesIff`): a request stores its code before it deletes the attempts, so
  its own DEL, and the DEL of any call that was in flight, can throw away the count of guesses at the new code.
* TTL answers are rounded, so the attempts key can die up to 499 ms before its code, and a code can meet five wrong
  guesses with no overlap at all (`ExpiryAddsTwo`, `PerCodeAlone`). An EXPIRE by the TTL of an older code can make it
  die minutes earlier (`StaleExpireRuns`, `CountsToTheEndIff`). A lock opens, and a cooldown ends, half a second early.
* The reaction limit counts and adds in two pipelines, so 59 + `k` reactions can pass in a minute (`SixtyIff`).
* A second can hold 19 sends, not 10 (`FloodBound`, `BoundIsMet`); `WithinLimitIff` says for which seconds 10 holds.
* The comment on `toggleReaction` says the race is gone. Two overlapping toggles of a reaction still both delete it
  (`ParityIff`).
* `leaveTrip` and `approveJoin` invalidate the access cache inside their transactions. A check between the invalidation
  and the commit caches a grant for up to five minutes after leaving, or a denial for up to 30 s after the approval
  (`ChangeCanBeOvertaken`, `ShutOutIff`, `LetInIff`). Leaving or being kicked from a community invalidates nothing,
  against the comment on `checkRoomAccess` (`KickedKeepsAccess`, `KickShutsOutIff`).
* Requests to a trip read rows and write them back later, whole rows with the counter and the limit included. Two
  overlapping approvals lose an update of the seat counter and exceed the limit (`LostUpdate`, `ExactIff`,
  `CapacityIff`). A join that is past the check of its token, or a link that is saved late, gets past `disable`
  (`DeadTokenIff`).
* Requests to a community do the same. A member who leaves while being kicked is counted down twice (`DepartsTwice`), an
  `update` writes an old counter back (`SavesOldCounter`), a phone gets two pending invites (`InvitesTwice`), an answered
  invite changes (`AnswersTwice`), and a join past its check enters after the switch to invite-only. `RaceLedger` is
  the exact balance in every interleaving; `BalanceIff`, `OnePendingIff`, `AnswersStayIff` and `InviteOnlyShutsIff` say
  when each of them holds.
* Two taps of a free auto-join link count a user who had left or been rejected twice, since both find the row
  (`TwoTapsIff`); the key of the table saves only a new user from that.
* A double tap on the current stop advances twice (`DoubleTap`), and two completions that overlap can undo one of them
  (`LostCompletion`): the UPDATE names the next stop by id, whatever has become of it since it was chosen.
* The check of a link's password reads a hash that the lookup does not select, so switching a link to password-protected
  requires a password even when one is stored (`HashMattersIff`, `RepeatingTheModeIsRefused`).
* The member counter of a community is not raised when a former member comes back, so it drifts downwards without bound
  (`Ledger`, `TripsDrainCounter`).
* Accepting an invite calls `join`, which refuses communities that are not open. The invite is used up all the same, and
  an invite-only community admits nobody (`AcceptMakesMemberIff`, `InviteOnlyAdmitsNobody`).
* Completing stops early leaves more than one stop current (`AnyOrder` says how many).

## Model

| member | source | states |
|---|---|---|
| ChatDelivery.EveryInterleavingIsSafe | src/modules/chat/chat.service.ts:339-450 | after any interleaving of enqueues, reads, inserts, failures, crashes, acks and claims by any workers: each entry is exactly one of undelivered, pending, acknowledged; what is acknowledged is in the table; one row for each id, which records, field by field, what was queued under it and who sent it; no entry in two batches |
| ChatStream.RunKeepsInv | src/modules/chat/chat.service.ts:339-450 | the invariant behind it, kept by any run from any state that has it: also that batches in flight are pending and what a worker is about to acknowledge is in the table |
| ChatStream.RowsAreFaithful | src/modules/chat/chat.service.ts:372-391 | in every state satisfying the invariant, a row has the id, room, sender, content, reply and time of the entry queued under its id, in whatever room that entry lies, as plain text, neither pinned nor deleted |
| ChatStream.InsertAddsBatch | src/modules/chat/chat.service.ts:394-400 | after the insert-or-ignore of a batch every entry of the batch has its row, also when some were there before |
| ChatStream.InsertAddsOnlyBatch | src/modules/chat/chat.service.ts:394-400 | a row that is new after an insert comes from an entry of that batch |
| ChatStream.StepKeepsInv | src/modules/chat/chat.service.ts:207-450 | one step of any kind, in any room, keeps the whole invariant, the other rooms included |
| ChatDelivery.PendingLeavesOnlyByAck | src/modules/chat/chat.service.ts:402-404 | an entry leaves the pending list only by the ack of the worker that holds it, and then its row is in the table |
| ChatDelivery.FailedInsertStrands | src/modules/chat/chat.service.ts:393-404 | when the insert of a batch fails, each of its entries is pending with no flush that knows of it |
| ChatDelivery.StrandedForever | src/modules/chat/chat.service.ts:347-361 | such an entry stays pending in every later state, whatever is read, claimed or acknowledged |
| ChatDelivery.DeliveryIff | src/modules/chat/chat.service.ts:339-450 | some continuation puts an entry into the table if and only if its row is there, it is unread, or a flush that read it has not inserted it yet |
| ChatDelivery.FailedInsertIsNeverRetried | src/modules/chat/chat-flush.worker.ts:44-45 | after a failed insert an entry of the batch never reaches the table and stays pending for ever: the retry of the comment does not exist |
| ChatDelivery.LossHappens | src/modules/chat/chat.service.ts:393-400 | such a loss happens: for every message there is a run from the start in which a worker reads it and the insert fails, after which no continuation stores it |
| ChatDelivery.LostForever | src/modules/chat/chat.service.ts:413-450 | an entry that is not deliverable is never deliverable again |
| ChatDelivery.ClaimIsInert | src/modules/chat/chat.service.ts:436-442 | with and without an XCLAIM exactly the same continuations are possible, and they lead to the same table, batches, pending and acknowledged entries: only owners differ |
| ChatDelivery.ClaimTakesIff | src/modules/chat/chat.service.ts:436-442 | holder and time of a pending entry change by a claim only, and exactly for entries that were listed and have still been idle for 5 s when the claim arrives |
| ChatDelivery.FlushTakesIff | src/modules/chat/chat.service.ts:347-432 | a flush lists for its claim exactly those of the 50 oldest pending entries that have been idle for more than 5 s, and reads exactly the next 50 entries, or as many as there are |
| ChatStream.StaleIdsExact | src/modules/chat/chat.service.ts:418-432 | an entry is listed if and only if it is delivered, pending, idle for more than 5 s, and fewer than 50 pending entries lie before it |
| ChatDelivery.CleanRunStrandsNothing | src/modules/chat/chat.service.ts:347-404 | in runs without failed inserts and crashes every pending entry is in the hands of a flush in progress |
| ChatDelivery.CleanRunDelivers | src/modules/chat/chat.service.ts:339-407 | after such a run every entry of a drained stream is in the table and acknowledged |
| ChatDelivery.FlushRuns | src/modules/chat/chat.service.ts:339-407 | an undisturbed flush is a run of the machine: it stores the next batch, acknowledges exactly it and moves the group's cursor to its end |
| ChatDrain.FlushTraceRuns | src/modules/chat/chat.service.ts:339-407 | whatever the group, backlog and fate of the insert, one flush is a run of the machine with the stated outcome |
| ChatDrain.FlushRecords | src/modules/chat/chat.service.ts:372-400 | the rows that a flush adds record the next 50 entries of the stream, each with its sender, and if the insert succeeds each of those entries is recorded |
| ChatDrain.TickIsRun | src/modules/chat/chat-flush.worker.ts:115-132 | a tick over the active streams is a run of the machine, and a clean one if every insert succeeds |
| ChatDrain.TickAdvances | src/modules/chat/chat-flush.worker.ts:122-131 | a failing stream does not stop the others: each active stream is flushed once, each other stream is left alone |
| ChatDrain.TicksShrinkBacklog | src/modules/chat/chat-flush.worker.ts:98-132 | n ticks take n batches of 50 off the backlog of every registered stream, down to zero |
| ChatDrain.TicksMakeReadable | src/modules/chat/chat-flush.worker.ts:98-132 | after a clean run, enough ticks make everything broadcast in a registered room readable, once and in order |
| ChatHistory.WalkIsHistory | src/modules/chat/chat.service.ts:492-516 | the pages got by using the oldest message of each as the next cursor join up to the sorted visible history below the start, for any limit of at least 1; all but the oldest page are full |
| ChatHistory.StepBack | src/modules/chat/chat.service.ts:504-514 | below the oldest message of a page lies exactly what the page left over, so the walk terminates |
| ChatHistory.BelowSorted | src/modules/chat/chat.service.ts:492-514 | the rows behind a page are ascending in (createdAt, id) and are exactly the visible rows of the room before the cursor |
| ChatHistory.PageIsSuffix | src/modules/chat/chat.service.ts:500-502 | a page is the newest `min(limit, 100)` of those rows, oldest first |
| ChatHistory.PageIsNewest | src/modules/chat/chat.service.ts:492-516 | spelled out on the rows: a page holds the newest visible messages of the room older than the cursor, at most 100 and at most the limit, in order; what is left out is older, and only left out of a full page |
| ChatHistory.WalkIsStable | src/modules/chat/chat.service.ts:504-516 | rows inserted above the cursor during the walk change no later page |
| ChatEndToEnd.EverythingBroadcastIsRead | src/modules/chat/chat.service.ts:207-533 | after a clean run with the room drained, walking back reads every message broadcast in the room exactly once, in (createdAt, id) order, with its id, room, content, kind, reply and time; each comes with the user-table entry of the user who sent it, and with none exactly when that user is gone, and with exactly the reactions to it; whenever the group was created |
| ChatLoss.EverythingNotLostIsRead | src/modules/chat/chat.service.ts:207-533 | in every run, with any failures and crashes, once a room is drained walking back reads every message broadcast in it once and in order, with its sender and its reactions, except exactly those whose flush ended between reading and inserting them |
| ChatLoss.StoredIffNotLost | src/modules/chat/chat.service.ts:339-407 | in a drained room after any run, an entry is in the table if and only if no flush of the run ended between reading and inserting it |
| ChatLoss.AliveIffNotLost | src/modules/chat/chat.service.ts:339-407 | over any run from any state, an entry that could reach the table still can at the end if and only if no flush lost it in that way |
| ChatEndToEnd.ReadBackIsHistory | src/modules/chat/chat.service.ts:482-533 | walking back through formatted pages gives the formatted history below the start |
| ChatEndToEnd.StreamIsWhatWasQueued | src/modules/chat/chat.service.ts:237-239 | the stream of a room is the messages queued in it, in order, through any run |
| ChatEndToEnd.RowsRecordQueued | src/modules/chat/chat.service.ts:372-400 | after any run each row of a room records a message queued in it, sender included, and no other message was queued there under its id |
| ChatEndToEnd.HistoryIsWhatWasQueued | src/modules/chat/chat.service.ts:482-516 | the history of a drained room after a clean run is the rows of what was queued, and no others |
| ChatEndToEnd.FormatPage | src/modules/chat/chat.service.ts:518-532 | with one batched load of reactions, each message of the page shows its row, the user-table entry of its sender, none if there is none, and exactly the reactions to it |
| ChatEndToEnd.ReplyResolvesIff | src/modules/chat/chat.service.ts:266-312 | in every reachable state a reply resolves exactly when its target is among the newest 200 entries of the stream, and the stream answers, or is in the table; it quotes the message queued under that id, with the name it was sent under if it came from the stream and the user row's name otherwise |
| ChatEndToEnd.ReplyFoundIff | src/modules/chat/chat.service.ts:266-312 | over any stream and table, deleted rows included: a reply resolves exactly when the stream answers and has the target among its newest 200 entries, or an undeleted row has the id; the snapshot is the first 200 characters, with the sender's name or "Unknown" |
| ChatEndToEnd.SearchBackFinds | src/modules/chat/chat.service.ts:275-294 | the search finds an entry exactly when one of the newest `count` entries has the id |
| Grouping.GroupByExact | src/modules/trips/trips.service.ts:225-233 | grouping loses, duplicates and reorders nothing: a key is present exactly when a row has it, with the values of its rows in row order |
| Reactions.PresentIffToggledOdd | src/modules/chat/chat.service.ts:551-564 | a reaction is present exactly when it was toggled an odd number of times, and never twice |
| Reactions.ReactionsAreListed | src/modules/chat/chat.service.ts:585-591 | for every table and message: a user is listed under an emoji exactly when that reaction of that user to that message is in the table, once each and in row order, and an emoji is listed exactly when somebody reacted with it |
| ToggleRace.ParityIff | src/modules/chat/chat.service.ts:537-564 | with INSERT and DELETE as separate commands, an odd number of toggles decides in every run exactly when toggles of the same reaction do not overlap |
| ToggleRace.BothDelete | src/modules/chat/chat.service.ts:551-564 | two overlapping toggles of a reaction that is there both delete it |
| Reactions.BatchedLoad | src/modules/chat/chat.service.ts:518-531 | the single IN query filtered for a message equals the message's own query |
| ChatService.ChatService.QueueMessage | src/modules/chat/chat.service.ts:207-258 | appends one entry, with this sender, content and time, to the room's stream as a step of the machine, and returns the same as a message from this user, with the resolved reply and no reactions |
| ChatService.ChatService.EnsureConsumerGroup | src/modules/chat/chat.service.ts:318-331 | creates the group at position 0, or changes nothing if it exists |
| ChatService.ChatService.RecoverPendingEntries | src/modules/chat/chat.service.ts:413-450 | gives this worker exactly those of the 50 oldest pending entries that have been idle for more than 5 s, and changes nothing else; without a group, nothing |
| ChatService.ChatService.FlushStream | src/modules/chat/chat.service.ts:339-407 | leaves exactly the state that one flush of the machine leaves, and returns the batch length or the error; the rows it adds record the next 50 entries, senders included |
| ChatService.ChatService.GetHistory | src/modules/chat/chat.service.ts:482-533 | refuses exactly when the live cached answer, or else the membership tables, deny; otherwise shows the newest visible messages below the cursor, each with its row, the user who sent it, and exactly the reactions to it |
| ChatService.ChatService.ToggleReaction | src/modules/chat/chat.service.ts:543-574 | fails exactly for an unknown message; otherwise flips this reaction of this user and no other, and returns the message's room and exactly the reactions to it, by emoji and in row order |
| ChatService.ChatFlushWorker.RegisterStream | src/modules/chat/chat-flush.worker.ts:88-92 | adds the stream to the active set and makes sure its group exists |
| ChatService.ChatFlushWorker.DrainAllStreams | src/modules/chat/chat-flush.worker.ts:115-132 | flushes every active stream once, in some order, whatever fails, and keeps the invariant |
| ChatService.ChatFlushWorker.Tick | src/modules/chat/chat-flush.worker.ts:98-113 | does nothing while a drain is running, otherwise drains; the timer is armed again either way |
| AccessCache.BoundedStaleness | src/modules/chat/chat.service.ts:110-140 | under any membership changes, an answer given at t was in the database at some instant in (t - ttl - delay, t], where delay bounds the time a check sits between query and SET: 300 s for grants and 30 s for denials when checks are atomic |
| AccessCache.StalenessIsMet | src/modules/chat/chat.service.ts:117-139 | the bound is met for grants and denials and for every delay: an answer can be given ttl + delay - 1 seconds after the last instant at which it was true |
| AccessCache.NoGrantMuchLater | src/modules/chat/chat.service.ts:110-140 | however a user left, no grant is given 300 seconds and one delay of a check later |
| AccessCache.ShutOutIff | src/modules/trips/trips.service.ts:615-632 | a user who is out gets no grant until re-approved if and only if no live grant is cached and no check in flight has read the row before |
| AccessCache.LetInIff | src/modules/trips/trips.service.ts:536-552 | a user who was approved is denied no more, until leaving, if and only if no live denial is cached and no check in flight has read the row before |
| AccessCache.UndisturbedChangeTakes | src/modules/trips/trips.service.ts:629-632 | a leave or an approval with nothing between invalidation and commit, and no check half way, takes effect: the old answer is not given again |
| AccessCache.ChangeCanBeOvertaken | src/modules/trips/trips.service.ts:513-646 | a check between invalidation and commit caches the old answer: a grant still given 299 s after a leave, a denial still given 29 s after an approval |
| AccessCache.KickShutsOutIff | src/modules/community/community.service.ts:324-355 | leaving or being kicked from a community, which invalidates nothing, shuts out if and only if no live grant was cached at that moment and no check had read the row before |
| AccessCache.KickedKeepsAccess | src/modules/community/community.service.ts:194-220 | a member who was granted access and then left is still granted it 299 s later, with no overlap at all |
| AccessCache.CheckOnceIsThreeSteps | src/modules/chat/chat.service.ts:117-139 | a check on its own equals its three steps in a row |
| AccessCache.RoomAccess.CheckRoomAccess | src/modules/chat/chat.service.ts:110-140 | gives a live cached answer as it is; otherwise answers from the tables and caches a grant for 300 s and a denial for 30 s; an unknown room type is refused and not cached |
| AccessCache.RoomAccess.InvalidateRoomAccessCache | src/modules/chat/chat.service.ts:142-148 | drops this user's entry for this room and no other |
| RoomMembers.TripRequestMoves | src/modules/chat/chat.service.ts:123-127 | what the membership query of a trip's room finds changes by the requests to the trip that let a user in or by the user's own leaving, exactly |
| RoomMembers.CommunityRequestMoves | src/modules/chat/chat.service.ts:128-133 | and that of a community's room by coming in and going out of the community, exactly |
| RateLimit.DecidesLikeFullLog | src/modules/chat/chat.service.ts:156-176 | in every interleaving of counts and adds, a reaction is refused exactly when the full log holds 60 adds in the preceding 60 s, and the 70 s expiry has dropped no entry that still counts |
| RateLimit.RunAgrees | src/modules/chat/chat.service.ts:161-173 | pruned set and full logs agree after every run: each stored entry is that of a call that has added, each add of the last minute is stored, and whoever was granted has added or is about to |
| RateLimit.AnyMinute | src/modules/chat/chat.service.ts:152-176 | with at most k calls between count and add, no window of 60 s, wherever it lies, holds more than 59 + k grants |
| RateOverlap.BoundIsMet | src/modules/chat/chat.service.ts:161-173 | for every k some run grants 59 + k reactions at one instant |
| RateOverlap.SixtyIff | src/modules/chat/chat.service.ts:152-176 | no minute of any run holds more than 60 grants exactly when calls of the user do not overlap |
| RateLimit.ReactionLimiter.CheckRateLimit | src/modules/chat/chat.service.ts:156-176 | a call is allowed exactly when the live key holds fewer than 60 entries of the last minute; one that meets no other leaves the key that count and add leave, and no other user's key changes |
| FixedWindow.AnyWindow | src/modules/chat/chat.service.ts:184-192 | with limit L, at most L hits are allowed in a lifetime of the counter and at most 2L - 1 in any window of its length |
| FixedWindow.FloodBound | src/modules/chat/chat.service.ts:178-192 | at most 19 sends in any second |
| FixedWindow.BoundIsMet | src/modules/chat/chat.service.ts:184-192 | for every limit and window some run allows exactly 2L - 1 hits in one window |
| FixedWindow.WithinLimitIff | src/modules/chat/chat.service.ts:184-192 | the window of one length from a given instant stays within the limit under every continuation if and only if no counter is alive at its start, or the living one has reached the limit |
| FixedWindow.TenASecondIff | src/modules/chat/chat.service.ts:178-192 | so after any run, for the 10 sends of a second |
| FixedWindow.LocationUpdatesApart | src/modules/location/location.service.ts:57-63 | allowed location updates of a user are at least 2 s apart |
| FixedWindow.Counters.CheckFloodControl | src/modules/chat/chat.service.ts:184-192 | over the whole history of calls, a send is allowed exactly when it is one of the first 10 of the counter alive, which the first gives a second to live; it joins the user's log of sends exactly when it is allowed, and that log never holds more than 19 in a second |
| FixedWindow.Counters.CheckRateLimit | src/modules/location/location.service.ts:58-63 | likewise for location updates, the first in 2 s; their log stays 2 s apart |
| Windows.SpacedBoundsWindow | src/modules/chat/chat.service.ts:152-176 | instants each at least a width later than the one `limit` places before fill no window of that width beyond the limit |
| OtpBounds.PerCode | src/modules/auth/auth.service.ts:121-202 | with every Redis command a step and at most k calls in flight, a code meets at most 2 + k wrong guesses and two more for each time its count was lost; that is at most k + 1 times, and at most k - 1 times but for expiries, so without an expiry at most 3k guesses; and it passes the comparison at most k times |
| OtpOverlap.CountsToTheEndIff | src/modules/auth/auth.service.ts:121-178 | an attempts key that has counted guesses at the living code dies at most 499 ms before it, in every run exactly when calls do not overlap |
| OtpOverlap.StaleExpireRuns | src/modules/auth/auth.service.ts:169-178 | two overlapping calls bring about an attempts key that dies 290 s before its code: an EXPIRE by the 10 s left to an older code lands on the key of the new one |
| OtpTimes.ExpireLands | src/modules/auth/auth.service.ts:174-177 | an EXPIRE some delay after its TTL sets an expiry at most 499 ms before, and 500 ms and the delay after, that of the code whose TTL was read |
| OtpBounds.GuessBound | src/modules/auth/auth.service.ts:88-202 | with at most k calls in flight, a window of m cooldowns (59.501 s) sees at most 1 + km codes, and holds at most 2 + k wrong guesses for each and two for each loss of a count in it, of which there are at most k + 1 for each code |
| OtpAlone.PerCodeAlone | src/modules/auth/auth.service.ts:164-198 | without overlap a code loses its count at most once, and meets at most three wrong guesses and two more for that |
| OtpAlone.GuessBoundAlone | src/modules/auth/auth.service.ts:88-202 | without overlap: three for each cooldown begun and the one before, and two for each life of the attempts key (299.501 s) |
| OtpOverlap.WrongBoundMet | src/modules/auth/auth.service.ts:121-198 | for every k a run reaches 3k wrong guesses for one code though nothing expires: two before each of k - 1 late DELs, and 2 + k |
| OtpOverlap.ExpiryAddsTwo | src/modules/auth/auth.service.ts:164-198 | and for every k one reaches 3k + 2 with a single expiry, by TTL rounding; with k = 1 that is five without overlap |
| OtpOverlap.PassBoundMet | src/modules/auth/auth.service.ts:164-202 | for every k a run lets one code pass k times |
| OtpOverlap.UsedOnceIff | src/modules/auth/auth.service.ts:200-202 | a code passes at most once in every run exactly when calls do not overlap |
| OtpOverlap.ThreeGuessesIff | src/modules/auth/auth.service.ts:180-191 | as long as nothing expires, a code meets at most three wrong guesses exactly when calls do not overlap |
| OtpOverlap.LockedOutIff | src/modules/auth/auth.service.ts:154-202 | once the phone is locked no login is told that it is in until half a second of the lock is left, whatever codes are issued, if and only if no login in flight is past the lock check |
| OtpOverlap.LetsInIff | src/modules/auth/auth.service.ts:146-222 | some login of a run is told that it is in exactly when one passes whose account is not suspended |
| OtpOverlap.LockShutsOut | src/modules/auth/auth.service.ts:180-191 | if the third strike meets no such login, nobody gets in for 899.5 s and no new login gets past the check |
| OtpOverlap.CooldownIsBounded | src/modules/auth/auth.service.ts:124-129 | what `LockedOutIff` asks of the cooldown holds in every reachable state |
| Otp.LoginAloneIsSteps | src/modules/auth/auth.service.ts:146-220 | a login that meets nobody leaves the keys, and gets the answer, that its commands leave and give, a suspended account included |
| Otp.RequestAloneIsSteps | src/modules/auth/auth.service.ts:88-129 | likewise a request for a code |
| OtpService.AuthService.RequestOtp | src/modules/auth/auth.service.ts:78-141 | refuses exactly what is no phone number and, with the seconds left, what comes while half a second or more of the cooldown is left; otherwise sets a cooldown of 60 s, stores the code for 300 s and drops the attempts unless Firebase sends it, and returns the code exactly outside production; other phones' keys unchanged |
| OtpService.E164Iff | src/modules/auth/auth.service.ts:81 | a phone is accepted exactly when it is an optional plus, a digit from 1 to 9, and one to fourteen digits |
| OtpService.AuthService.Login | src/modules/auth/auth.service.ts:146-222 | lets in exactly who gives the living code of a phone that is not locked and whose account is absent or active; says suspended exactly for the same with an inactive account, expired without a living code, the tries left after a first or second wrong guess, and locked at the third, with the end of the lock; an unknown phone that is let in has an active account afterwards |
| TripSeats.CounterIsExact | src/modules/trips/trips.service.ts:82-134 | after any requests to both services the counter equals the approved rows, the creator is one of them, and it is at least 1 |
| TripSeats.ClampNeverActs | src/modules/trips/trips.service.ts:624-627 | the clamp at zero never takes effect: an approved member who leaves is not the last |
| TripSeats.StepMovesOne | src/modules/share-links/share-links.service.ts:241-310 | a request of either service admits one user below the limit, releases one other than the creator, or leaves approved rows and counter alone |
| TripSeats.WithinLargestMax | src/modules/trips/trips.service.ts:389-402 | the count never exceeds the largest limit so far, and a step that raises it ends within the current limit |
| TripSeats.NobodyAdmittedWhileFull | src/modules/trips/trips.service.ts:536-545 | while the limit is at or below the count, neither service admits anyone |
| TripSeats.DeadTokenStaysDead | src/modules/share-links/share-links.service.ts:132-148 | a token once replaced or disabled never admits anyone again unless that token is generated anew |
| TripSeats.OnlyCreatorGoverns | src/modules/trips/trips.service.ts:359-646 | a refused request changes nothing; one by anybody but the creator changes no row but that user's own, nor limit, price, start, status or the terms of the link, and approves itself only through a free auto-join link |
| TripRules.StandingChangesIff | src/modules/trips/trips.service.ts:433-646 | in every reachable trip, for every request and user: a user gets a seat exactly by the creator's approval of a waiting request while a seat is left, or by the active, unexpired link's token when link and trip are auto-join and free, the trip planned and below its limit, and the user not the creator and without row or rejected or left; starts to wait, is turned away and leaves under like conditions; no row changes otherwise |
| TripRules.EveryoneWasLetIn | src/modules/share-links/share-links.service.ts:241-310 | over any run, whoever holds a seat at the end and held none before was let in by one of its requests in one of those two ways |
| TripRules.BecomesLeftIff | src/modules/trips/trips.service.ts:602-634 | only the user leaves, never the creator; the time is noted and a seat that was taken is given back |
| TripRules.TermsChangeIff | src/modules/trips/trips.service.ts:359-428 | limit, price and start change exactly by the creator's edit of a planned trip that starts in six hours or later, and the status exactly by the creator's cancellation of a trip not completed |
| TripRules.CancelledIff | src/modules/trips/trips.service.ts:406-428 | over any run a trip stays planned exactly until its creator cancels it, and is then cancelled for good |
| TripRules.RefusedIff | src/modules/trips/trips.service.ts:359-634 | every request to either service is refused for the first check that it fails, in the order of the code, and then changes nothing; otherwise it is accepted |
| TripRules.ExpiredLinkStaysClosed | src/modules/share-links/share-links.service.ts:245-247 | once a link has expired it admits nobody and changes nothing, whatever its token, until the creator makes a new one or sets another expiry |
| TripRules.UpsertsIff | src/modules/share-links/share-links.service.ts:57-98 | a new link has the terms given, view-only and without password and expiry by default; it keeps its counts |
| TripRules.UpdatesIff | src/modules/share-links/share-links.service.ts:100-122 | a change of the link replaces what is given and keeps the rest |
| TripRules.DisablesIff | src/modules/share-links/share-links.service.ts:132-148 | disabling closes the link and keeps its terms; a new token opens it under the old terms |
| TripRules.LinkCountsIff | src/modules/share-links/share-links.service.ts:241-325 | a join by link counts one request, and one success exactly when the user comes in; nothing else touches the link |
| TripSeats.HashMattersIff | src/modules/share-links/share-links.service.ts:109-115 | the code and the check as written differ exactly on the creator's requests to make a link with a stored password password-protected without giving one: the code refuses them |
| TripSeats.RepeatingTheModeIsRefused | src/modules/share-links/share-links.service.ts:100-122 | such a request arises: protecting a link and repeating the mode without the password |
| TripRaces.ExactIff | src/modules/trips/trips.service.ts:357-634 | with the reads of every request of both services apart from its writes, and whole rows written back, the counter is exact whenever no request is under way, in every run exactly when requests to the trip do not overlap |
| TripRaces.CapacityIff | src/modules/trips/trips.service.ts:357-545 | and no more are approved than the largest limit so far, changes of the limit included, exactly then |
| TripRaces.SerializableIff | src/modules/share-links/share-links.service.ts:57-310 | and what requests leave is what some requests leave one after another, exactly then |
| TripRaces.DeadTokenIff | src/modules/share-links/share-links.service.ts:100-310 | a token that was replaced or disabled stays dead and lets nobody in, in every interleaving, exactly when no request under way is past its check or about to save a link read while the token was good |
| TripRaces.LostUpdate | src/modules/trips/trips.service.ts:536-545 | from a new trip for two, two approvals that overlap leave three approved and a counter of two |
| TripRaces.TwoTapsIff | src/modules/share-links/share-links.service.ts:260-310 | a user who taps a free auto-join link twice, the second look before the first tap writes, is counted once exactly when there was no row of the user before; one who had left or been rejected is counted twice |
| TripRaces.AskMeetsEntry | src/modules/share-links/share-links.service.ts:284-310 | a plain request that saw no row does not undo that the user came in by the link meanwhile: the key refuses its row |
| TripRaces.AloneIsOneStep | src/modules/trips/trips.service.ts:357-634 | any request to either service that meets no other does what it does as one step |
| TripStore.ServeKeepsValid | src/modules/share-links/share-links.service.ts:57-310 | every request to either service, for any trip, keeps tokens unique and every trip's counter exact |
| TripRules.ServedByTheRules | src/modules/trips/trips.service.ts:359-646 | on the table of all trips the answer is the first broken check of the trip, and a refusal changes no trip |
| TripStore.EachTripLivesItsOwnRun | src/modules/trips/trips.service.ts:57-646 | after any calls to both services, each trip of the table is what a run of requests to it alone makes of its creation |
| TripStore.EveryCounterIsExact | src/modules/trips/trips.service.ts:82-646 | in every reachable table every trip's counter is the number of its approved rows, its creator's among them |
| TripStore.EveryTripWithinItsLimits | src/modules/trips/trips.service.ts:389-402 | in every reachable table no trip has more approved users than the largest limit it has had |
| TripServices.TripsService.Create | src/modules/trips/trips.service.ts:57-136 | refuses past departures and too short round trips; otherwise adds a planned trip with limit 20 unless given, paid only with a price above 0, its creator as the one approved participant, and its stops numbered from 1 |
| TripServices.TripsService.ApproveJoin | src/modules/trips/trips.service.ts:513-558 | answers with the first broken check; an approval clears this user's cached access to this trip and seeds this member's stops; a refusal touches neither, and the store stays valid |
| TripServices.TripsService.LeaveTrip | src/modules/trips/trips.service.ts:602-646 | answers with the first broken check; a departure clears this user's cached access to this trip and no other; a refusal clears nothing, and the store stays valid |
| TripServices.TripsService.AttachStops | src/modules/trips/trips.service.ts:225-233 | every trip of a page gets exactly the rows with its id, once each and in query order |
| TripServices.TripsService.StopsByTrip | src/modules/trips/trips.service.ts:225-230 | the loop files every row under its trip, once and in query order, and makes no empty list |
| TripServices.ShareLinksService.Upsert | src/modules/share-links/share-links.service.ts:57-98 | replaces or creates the link with a token no other link has, and the store stays valid |
| TripServices.ShareLinksService.Regenerate | src/modules/share-links/share-links.service.ts:138-148 | gives the link a token no other link has and activates it, and the store stays valid |
| TripServices.ShareLinksService.JoinViaLink | src/modules/share-links/share-links.service.ts:241-310 | accepted exactly when some trip's active, unexpired link has the token and the trip may be entered by the user, who then comes in if link and trip are free and waits otherwise; an expired link is refused as expired, and a refusal changes nothing |
| StopProgress.AnyOrder | src/modules/trips/stop-progress.service.ts:190-240 | completing stops in any order: all current stops precede all pending ones, and while any is pending the current ones number one more than the stops completed before their turn |
| StopProgress.CompletedIffMarked | src/modules/trips/stop-progress.service.ts:202-207 | a stop is completed exactly when it was marked, so marking all stops in any order finishes the trip |
| StopProgress.CompletesExactly | src/modules/trips/stop-progress.service.ts:202-237 | one completion, stop by stop: the stop is completed, the first other pending stop becomes current unless it was completed before, and the rest stays |
| StopProgress.InOrderIsCounter | src/modules/trips/stop-progress.service.ts:221-237 | when only the current stop is ever marked, the array is completed* current? pending* and refines a single counter |
| StopRaces.OrderSurvives | src/modules/trips/stop-progress.service.ts:190-240 | however completions of one member overlap, all current stops precede all pending ones, some stop is current while any is pending, and no stop is completed that was not marked |
| StopRaces.HeldRowStays | src/modules/trips/stop-progress.service.ts:190-240 | in every run, the row of a stop that a completion has written and not committed is written by no other, and stays as it is until that completion ends |
| StopRaces.FollowsIff | src/modules/trips/stop-progress.service.ts:195-240 | the rows are what the completions leave one after another, in every run exactly when completions of the member do not overlap |
| StopRaces.CompletionsLastIff | src/modules/trips/stop-progress.service.ts:195-240 | what is marked is completed and stays so, in every run exactly then |
| StopRaces.DoubleTap | src/modules/trips/stop-progress.service.ts:195-237 | two taps on the current stop that overlap leave two stops current, though only that one was marked |
| StopRaces.LostCompletion | src/modules/trips/stop-progress.service.ts:221-237 | a completion is undone when another that overlaps has chosen its stop as the next |
| StopProgress.TallyIsMarks | src/modules/trips/stop-progress.service.ts:143-157 | a stop's completed count is the number of members who marked it, whatever order each followed, and the three counts cover the members once |
| StopProgress.TallyIsMembers | src/modules/trips/stop-progress.service.ts:143-157 | the three counts of a stop are those of the members whose own progress has it completed, current and pending |
| StopProgress.StopProgressService.EnsureRowsExist | src/modules/trips/stop-progress.service.ts:51-74 | adds the missing rows only, first current and the rest pending, and touches nobody else's |
| StopProgress.StopProgressService.MarkComplete | src/modules/trips/stop-progress.service.ts:174-241 | refuses unknown trips, foreign stops, and everybody but the creator and those whose row is approved, without change; otherwise the member's array moves as specified, missing rows seeded first, whichever are missing |
| CommunityLedger.Ledger | src/modules/community/community.service.ts:154-220 | after any requests one after another, active members = member_count + rejoins |
| CommunityLedger.NoRejoinsIff | src/modules/community/community.service.ts:163-168 | the rejoins counted are zero exactly when no step of the run brought a former member back |
| CommunityLedger.TripsDrainCounter | src/modules/community/community.service.ts:163-168 | n times leaving and coming back lower the counter by n and change nothing else |
| CommunityLedger.CreatorAlwaysActive | src/modules/community/community.service.ts:196-199 | in every reachable state the creator's row is active |
| CommunityLedger.StepBalances | src/modules/community/community.service.ts:324-355 | active rows and counter move together in every request, kicks and invites included, except in a rejoin |
| CommunityLedger.AtMostOnePending | src/modules/community/community.service.ts:263-267 | in every reachable state a phone has at most one pending invite to the community, requests one after another, calls to invite interleaving between phones |
| CommunityLedger.InviteConserves | src/modules/community/community.service.ts:246-291 | the three counters add up to the number of phones, duplicates included; invited = new pending invites + newly active members = distinct phones not covered before; afterwards exactly the listed phones are covered in addition |
| CommunityLedger.AcceptMakesMemberIff | src/modules/community/community.service.ts:296-320 | accepting ends in membership exactly when the community is active and open or the user was a member; the invite is used up in every case |
| CommunityLedger.AnsweredStaysAnswered | src/modules/community/community.service.ts:304-315 | an answered invite never changes again |
| CommunityLedger.InviteOnlyAdmitsNobody | src/modules/community/community.service.ts:154-158 | while a community stays invite-only its active members can only become fewer |
| CommunityLedger.OnlyCreatorGoverns | src/modules/community/community.service.ts:131-355 | a refused request changes nothing but an accepted invite; one by anybody but the creator changes neither join type nor activity, and no other member's row but that it may add owners of invited phones to an open community |
| CommunityRules.AnsweredByItsAddressee | src/modules/community/community.service.ts:296-320 | over any run an invite stays as it was unless a request of the run answered it while it was pending, made by the user it named or one whose phone it named; it then ends accepted or rejected as that user answered, with that user's id, and keeps its phone and inviter |
| CommunityRules.InviteChangesIff | src/modules/community/community.service.ts:304-315 | in one request an invite changes exactly by such an answer |
| CommunityRules.OthersAnswersRefused | src/modules/community/community.service.ts:304-310 | an answer of anybody else, or to an invite not pending, is refused and changes nothing |
| CommunityRules.InviteWrittenIff | src/modules/community/community.service.ts:250-285 | an invite is written exactly for a phone without pending invite whose owner, if any, is no member, unless the owner is added at once; it is pending and names phone, owner and inviter |
| CommunityRules.MembershipChangesIff | src/modules/community/community.service.ts:154-355 | a user becomes active exactly by joining, being added by an invitation, or accepting an invite, while the community is active and open; a first membership is ordinary and counted, a return keeps its role and is not; a user ceases to be active exactly by leaving or by the creator's kick, never the creator, and is counted down |
| CommunityRules.EveryoneCameIn | src/modules/community/community.service.ts:154-187 | over any run, whoever is a member at the end and was none before came in by one of its requests in one of those ways |
| CommunityRules.TermsChangeIff | src/modules/community/community.service.ts:131-150 | the join type changes exactly by an edit of the creator, the community ends exactly by its removal by the creator |
| CommunityRules.ActiveIff | src/modules/community/community.service.ts:145-150 | over any run a community is there exactly until its creator removes it |
| CommunityRules.RefusedIff | src/modules/community/community.service.ts:131-355 | every request is refused for the first check that it fails, in the order of the code, and then changes nothing but an accepted invite; otherwise it gets its reply |
| CommunityRaces.RaceLedger | src/modules/community/community.service.ts:131-355 | in every interleaving of look-ups and writes, active members = member_count + rejoins + departures of members gone already + what saved rows took off the counter |
| CommunityRaces.AloneIsOneStep | src/modules/community/community.service.ts:131-355 | a request that meets no other does what it does as one step |
| CommunityOverlap.BalanceIff | src/modules/community/community.service.ts:194-355 | active members = member_count + rejoins in every run exactly when requests to the community do not overlap |
| CommunityOverlap.DepartsTwice | src/modules/community/community.service.ts:201-348 | a leave and a kick of one member that overlap both count down: one active member and a counter of 0 |
| CommunityOverlap.SavesOldCounter | src/modules/community/community.service.ts:131-141 | an update that read the community before a member left writes the old counter back: one active member and a counter of 2 |
| CommunityOverlap.SerializableIff | src/modules/community/community.service.ts:131-355 | what requests leave is what some requests leave one after another, in every run exactly when they do not overlap |
| CommunityOverlap.OnePendingIff | src/modules/community/community.service.ts:263-285 | a phone has at most one pending invite in every run exactly when requests do not overlap |
| CommunityOverlap.InvitesTwice | src/modules/community/community.service.ts:263-285 | two calls that overlap within one phone leave it two pending invites |
| CommunityOverlap.AnswersStayIff | src/modules/community/community.service.ts:304-315 | no command changes an answered invite in every run exactly when requests do not overlap |
| CommunityOverlap.AnswersTwice | src/modules/community/community.service.ts:304-315 | an invite is accepted and then rejected by two answers that overlap |
| CommunityOverlap.InviteOnlyShutsIff | src/modules/community/community.service.ts:154-187 | while a community is invite-only nobody becomes active who was not, in every interleaving, exactly when no join under way has passed its check for such a user |
| CommunityOverlap.CreatorStaysIn | src/modules/community/community.service.ts:194-340 | however requests overlap, the creator stays an active member |
| CommunityStore.ServeKeepsValid | src/modules/community/community.service.ts:131-355 | every request, for any community, keeps the ledger balance, the creator's row, one pending invite a phone, and invites apart |
| CommunityStore.EachCommunityLivesItsOwnRun | src/modules/community/community.service.ts:43-355 | after any requests each community of the table is what a run of requests to it alone makes of its founding |
| CommunityStore.EveryLedgerBalances | src/modules/community/community.service.ts:56-355 | in every reachable table all of that holds for every community |
| CommunityServices.CommunityService.Create | src/modules/community/community.service.ts:43-84 | founds the community, invite-only unless given and with its creator as the one member and admin, under its slug, suffixed if taken; a suffixed slug that is taken too is refused without change; every community keeps exactly one slug |
| CommunityServices.CommunityService.InviteEach | src/modules/community/community.service.ts:246-289 | the loop runs the rounds in order, and its counts are how often each reply was given |
| CommunityServices.CommunityService.Invite | src/modules/community/community.service.ts:238-292 | refuses missing communities and strangers without change; otherwise conserves its input as `InviteConserves` says |
| CommunityServices.CommunityService.RespondToInvite | src/modules/community/community.service.ts:296-320 | hears exactly the user whom the pending invite names, or whose phone it names; the invite then is accepted or rejected, with that user's id; an accepted one makes a member exactly in an active open community; everybody else is refused without change |
| Slug.SlugIsCanonical | src/modules/community/community.service.ts:17-25 | every slug has length at most 80, uses only a-z, 0-9 and '-', and never has two adjacent hyphens |
| Slug.FixedIffCanonical | src/modules/community/community.service.ts:17-25 | the pipeline leaves a string alone exactly when it is in that form |
| Slug.Idempotent | src/modules/community/community.service.ts:17-25 | applying it twice equals applying it once |
| Slug.SlugifyIsOneScan | src/modules/community/community.service.ts:18-24 | the passes equal one scan that copies letters and digits and writes one hyphen for each group of separators |
| Slug.TrimIsMiddle | src/modules/community/community.service.ts:20 | trimming takes all white space off both ends and nothing else |
| Slug.ScanKeepsLetters | src/modules/community/community.service.ts:21-23 | before the cut no letter or digit is lost, added or moved |
| Slug.WordsAreJoined | src/modules/community/community.service.ts:21-24 | two words are joined by one hyphen exactly where white space or a hyphen stands between them; any other sign disappears |
| Slug.SuffixedTidyIff | src/modules/community/community.service.ts:46-50 | the suffix on a collision doubles a hyphen exactly when the slug ended in one |

## Left out

- A key is alive strictly before its expiry. Redis may answer for one more millisecond.
- OtpTimes.ExpireLands: bounds the expiry from the TTL that was read. That the attempts key always dies within half a second of the code is not promised, because it is false: `CountsToTheEndIff` says when it does not die early, and a late EXPIRE can make it die later by the delay.
- Otp: a call that fails between two commands is one that never goes on, and stays in flight.
- OtpService.AuthService.Login: meets no other call; the machine of `Otp` covers overlapping ones. The same holds for OtpService.AuthService.RequestOtp.
- RateLimit.ReactionLimiter.CheckRateLimit: meets no other call; `RateLimit` covers overlapping ones.
- AccessCache.RoomAccess.CheckRoomAccess: is one step; the machine of `AccessCache` splits it in three.
- FixedWindow: INCR and EXPIRE are one step; a crash between them, which leaves a counter that never expires, is not modelled.
- AccessCache.BoundedStaleness: needs a bound on how long a check sits between its query and its SET, which the program does not have; by `StalenessIsMet` there is no other bound.
- RateLimit.DecidesLikeFullLog: takes the counts in the order of their Date.now() values; several instances whose clocks differ may count in another order.
- TripSeats.CounterIsExact: takes the requests to a trip one after another; by `TripRaces.SerializableIff` that is exactly no overlap, and `TripRaces.ExactIff` covers the rest.
- TripSeats.ClampNeverActs: one request after another.
- TripSeats.WithinLargestMax: one request after another; `TripRaces.CapacityIff` covers overlap.
- TripSeats.NobodyAdmittedWhileFull: one request after another.
- TripStore.ServeKeepsValid: takes the requests to each trip one after another.
- TripStore.EachTripLivesItsOwnRun: likewise.
- TripStore.EveryCounterIsExact: likewise.
- TripStore.EveryTripWithinItsLimits: likewise.
- TripSeats.DeadTokenStaysDead: one request after another; `TripRaces.DeadTokenIff` covers overlap.
- TripRules.StandingChangesIff: takes the requests to a trip one after another, and so do the other theorems of TripRules; by `TripRaces.SerializableIff` that is exactly no overlap.
- TripRules.EveryoneWasLetIn: likewise.
- TripRules.ExpiredLinkStaysClosed: likewise; a join that has passed its check when the link expires goes on.
- TripRaces.ExactIff: takes the reads of a request as one step, both rows that an approval or a departure writes as one commit, and the increment of the trip with the counters of the link as one command.
- TripServices.TripsService.ApproveJoin: takes cache invalidation and seeding as successful, where the program ignores their failures; `ShutOutIff` covers a failed invalidation.
- TripServices.TripsService.LeaveTrip: takes the invalidation as successful as well.
- TripServices.ShareLinksService.JoinViaLink: is one step that does not fail half way; `TripRaces` splits it.
- StopProgress.AnyOrder: takes the completions of one member one after the other, and so do StopProgress.CompletedIffMarked and StopProgress.InOrderIsCounter; by `StopRaces.FollowsIff` that is exactly no overlap.
- StopProgress.CompletedIffMarked: likewise; `StopRaces.CompletionsLastIff` covers overlap.
- StopProgress.InOrderIsCounter: likewise; `StopRaces.DoubleTap` is the run that breaks it.
- StopProgress.StopProgressService.MarkComplete: meets no other completion of the same member; `StopRaces` covers overlap.
- StopRaces: the rows are seeded before; a lock on the next stop is waited for and taken as the transaction commits.
- CommunityLedger.Ledger: takes requests one after another, and so do the other theorems of CommunityLedger and those of CommunityStore; by `CommunityOverlap.SerializableIff` that is exactly no overlap, and `RaceLedger` is the balance without that.
- CommunityLedger.StepBalances: look-up and write are one step; `CommunityRaces` has them apart.
- CommunityLedger.AtMostOnePending: takes requests one after another, where the rounds of `invite` may interleave with any requests between phones; `CommunityOverlap.OnePendingIff` covers overlap within a phone.
- CommunityLedger.AnsweredStaysAnswered: one request after another; `CommunityOverlap.AnswersStayIff` covers overlap.
- CommunityLedger.InviteOnlyAdmitsNobody: one request after another; `CommunityOverlap.InviteOnlyShutsIff` covers overlap.
- CommunityStore.ServeKeepsValid: takes the requests to each community one after another.
- CommunityStore.EachCommunityLivesItsOwnRun: likewise.
- CommunityStore.EveryLedgerBalances: likewise; `CommunityRaces.RaceLedger` is the balance under overlap.
- CommunityRules.AnsweredByItsAddressee: takes requests one after another, and so do the other theorems of CommunityRules; `CommunityOverlap.AnswersStayIff` covers overlap.
- CommunityRules.EveryoneCameIn: likewise; `CommunityOverlap.InviteOnlyShutsIff` covers overlap.
- RoomMembers.TripRequestMoves: takes a request as one step; so does RoomMembers.CommunityRequestMoves.
- CommunityRaces: takes the look-ups of a request as one step; `listMembers` and `findMine` only read.
- CommunityLedger.InviteConserves: is about a call with no change of the community while it runs; the other theorems about invites do not need that. The same holds for CommunityServices.CommunityService.Invite.
- Reactions.PresentIffToggledOdd: takes a toggle as one step; `ToggleRace` splits it.
- ChatService.ChatService.FlushStream: runs undisturbed and does not crash after the insert; the machine of `ChatStream` covers every interleaving, failure and crash.
- ChatService.ChatService.RecoverPendingEntries: lists and claims at one instant; the machine has two steps.
- ChatService.ChatService.ToggleReaction: looks the room up in the table, without the cached mapping, and toggles in one step; the room of a message never changes.
- ChatService.ChatFlushWorker.DrainAllStreams: flushes the streams one after another, where the program starts them together.
- ChatDrain.TickIsRun: likewise for the steps of a tick; the machine covers the other orders.
- ChatDrain.TicksShrinkBacklog: the ticks follow each other with no message, registration or other worker in between; so do those of ChatDrain.TicksMakeReadable.
- Deleting messages: the modelled code has no operation for it.
- Uuids, tokens, invite ids and sorted-set members are parameters assumed to be new; JSON is a faithful round trip; escaped HTML is opaque content.
- The sender's name and avatar: the broadcast takes them from the token and the history from the user row, so they need not agree and are not compared.
- The queue-depth warning.
- `listMembers`, `findMine`, `isMember`, `listJoinRequests`, `getMyProgress`, the filters and PostGIS queries of `list` and `discover`, `updatePosition`, `getSnapshot` and `removePosition`: reads, or short writes with nothing to relate.
- `resolveByToken`, `verifyPassword` and the view counter of links; the 'expiring' link mode and the 'skipped' stop status, which the modelled code never sets.
- Payment fields, titles, descriptions and other fields that no branch reads.
- JWT, bcrypt, Firebase, push notifications, LiveKit, the chat:kick message, gateways, controllers, guards and DTO decorators.
- Account changes other than registration at login; toLowerCase is a parameter that leaves slug characters alone.
