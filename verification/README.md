# Invariants of the social backend

This project models the stateful engines inside the backend and proves what they keep over
every run: the batched counters of the writer actor, the rate limiter, the two retry queues, the
WebSocket hub, refresh tokens, the second factor, keyset pagination, live chunks and message
reactions. Handlers that only move JSON between a request and one table are not here.

`dafny verify dfyconfig.toml` checks everything.

## How it is built

* Concurrency. Each `writer.call` closure is one atomic step, and everything between two awaits
  may interleave. Where that matters the component is a transition system with `Step` and `Run`,
  the schedule is an arbitrary sequence of events, and an event whose handler is not at that point
  does nothing. A theorem about `Run` is a theorem about every interleaving.
* Imperative parts. Where the source updates maps, rows or fields in place there is a class whose
  methods loop and assign as the source does, and whose `ensures` tie the new state to the step
  functions: `CounterWriter.Writer`, `RateLimiter.Limiter`, `PinQueue.PinTable`,
  `PushWorker.Worker`, `Hub.Hub`, `RefreshTokens.Store`, `BackupCodes.CodeTable`,
  `LiveLog.Playlist`, `DmThreads.ThreadTable`, `Reactions.ReactionTable`.
* Database. A table is a map or a set, its UNIQUE and PRIMARY KEY constraints are map keys, and
  a read sees the committed rows. Reads and writes succeed; flush transactions commit.
* Outcomes of the network (FCM, the pinning service), the answer of the TOTP check inside the 2FA
  requests, the password check, and the push preference of a recipient are arbitrary, chosen anew
  for each use.

| module | what it holds |
|---|---|
| Counters, CounterOrder, CounterRules, Coalescing, CounterWriter | like and comment counters: drift, exactness, who may change which row, cost of coalescing, the actor |
| RateLimiter | token buckets and their eviction |
| RetryQueue, PinQueue, PushWorker | the bounded-batch retry queue and its two users |
| PushTokens, FcmError | dead push tokens; the status printed into an error and read back |
| Hub | connections, rooms, two-phase unregister |
| RefreshTokens, BackupCodes, SecondFactor, Totp | rotation, backup codes and 2FA writes, which 2FA requests get through, HOTP truncation and the window |
| Cursor, Keyset | cursor text, pages and page walks |
| LikePattern, LiveLog, DmThreads, Reactions | user search, live chunks, message threads, reactions |
| Common | option type, removal from a sequence |
| Text | decimal numbers, words, string order |

## Main results

* Counters. For every post, created before or during the run, and with no assumption on ordering,
  stored count + batched delta + deltas in flight minus the rows is exactly what flushes have
  discarded by clamping, so a counter can only drift up.
  When the deltas of each row arrive in the order of the row changes no flush ever clamps, and
  after an answered `flush_now` every counter equals its rows. Sequential likes per user and post,
  and +1 before -1 per comment, are enough for that; two overlapping requests are shown to leave a
  post with one like and no like row.
* Coalescing. For one batch the coalesced counter is at most the one-by-one clamped counter, with
  the exact condition for equality; the same bound holds over every run and every placement of
  flushes.
* Rate limiter. Eviction of idle buckets cannot be observed; throughput is at most
  rate + rate * T / 60 in any stretch, and a request is refused if and only if letting it through
  would break that bound on some stretch; spaced requests are never refused.
* Queues. A pin job with p pending jobs before it is settled after 5 * (p/10 + 1) passes, a
  notification with p before it has left after 8 * (p/50 + 1), whatever the services answer and
  whatever arrives behind it. Rows that arrive later with an earlier timestamp may overtake; with
  o of them the bounds are 5 + 5 * (p + o)/10 and 8 + 8 * (p + o)/50.
* Push. Every event of the worker is accounted for by a log: what it lists, sends, is answered and
  turns off. Over any number of passes, no token is sent to after a dead answer until it is
  registered again, and no notification after it is marked sent.
* Hub. Membership implies presence over every interleaving, a REST join by an absent user being
  precisely the step that breaks it. The sweep of an old session can drop a user who has come back.
* Second factor. Exactly which requests are accepted, over every run. No backup code is accepted twice, ten codes are conserved, and 2FA is never
  enabled without a secret while one user's requests do not overlap; with overlap it can be.

## Where the code differs from its comments

The model follows the code.

* `src/db/writer.rs:2-3` promises a flush every 500 deltas; line 40 counts distinct counters.
* `src/push/worker.rs:108-109` calls the status the second word of the error text; the Display
  form (`src/error.rs:14`) makes it a later one. The worker searches by prefix, so it is found.
* `src/api/totp.rs:80` calls the code alphabet 31 symbols; it has 32, and ten of them carry 50
  bits, not the 190 of line 86. Nothing proved here depends on it.
* `src/push/worker.rs:183` reads a column `calls` that `migrations/003_social_v2.sql:76` names
  `video_calls`, so preferences are never read; the preference is an arbitrary answer here.

## Assumptions

* A handler is not cancelled between its writer job and the delta it sends, and a flush
  transaction commits; `src/db/writer.rs:105-108` drops deltas otherwise.
* Counters and timestamps stay inside 64 bits.
* The limiter's clock does not go backwards between checks; it is read under the map's lock
  (`src/api/ratelimit.rs:40-41`).
* Fresh ids and tokens are new and hashing does not collide.
* Queue rows with equal `created_at` are read in insertion order, and passes of one worker do not
  overlap. Timestamps need not grow with insertion: `notify` reads the clock before its writer job
  (`src/api/notifications.rs:27`), and the clock is wall time.

## Model

| member | source | states |
|---|---|---|
| Counters.JobEffect | src/api/posts.rs:151-204 | A writer job of like, unlike, comment or delete flips at most one row, the one its delta is for, up for +1 and down for -1, and only when the row really changed; no job touches an existing counter. |
| Counters.FlushDrift | src/db/writer.rs:90-109 | A flush changes a counter's drift by exactly what MAX(0, ...) discards. |
| Counters.DriftStep | src/db/writer.rs:34-55 | Every step of handlers, channel, timer and flush, the creation of a post included, changes the drift of every counter by exactly what a clamp in that step discards. |
| Counters.DriftIsWhatClampsDiscard | src/db/writer.rs:38-54 | Over every run and for every counter, of posts there before or created on the way: stored + batched + in flight minus rows equals the total discarded, is never negative, and is zero exactly while no flush has clamped it. |
| CounterRules.RowsAre | src/api/discover.rs:264-286 | The like counter is about like rows, the comment counter about undeleted comments of the post. |
| CounterRules.LikeRule | src/api/posts.rs:161-175 | A like is stored if and only if the post is visible and the row new, and is an error if and only if the post is missing or deleted. |
| CounterRules.UnlikeRule | src/api/posts.rs:192-199 | Taking back a like never fails and removes exactly the caller's row. |
| CounterRules.CommentRule | src/api/posts.rs:312-338 | A comment is stored if and only if its post is visible, its id new and its parent, if any, a live comment of that post. |
| CounterRules.DeleteRule | src/api/discover.rs:263-284 | A comment is deleted if and only if it is live and the caller is its author or its post's author; only its deletion mark changes. |
| CounterRules.PostRule | src/api/posts.rs:134-141 | A post is created under a new id with counters at zero, and deleted exactly by its author while visible. |
| CounterRules.LikesAreOwn | src/api/posts.rs:151-204 | Over any step a user's like appears and disappears only by that user's own like and unlike. |
| CounterRules.CommentGoesIff | src/api/discover.rs:254-288 | A live comment is gone after a step if and only if the step took a delete of it by one of the two users who may. |
| CounterRules.GoneCommentWasDeleted | src/api/discover.rs:276-282 | Over every run, a comment live before and not after was deleted by its author or its post's author. |
| CounterRules.FlushesAtThreshold | src/db/writer.rs:38-43 | A delta makes the writer flush at once if and only if its batch then holds 500 distinct counters. |
| CounterRules.BatchStaysSmall | src/db/writer.rs:40 | Between steps the batch never holds 500 counters. |
| CounterOrder.StepInv | src/db/writer.rs:38-42 | While each row's deltas are sent in the order of its changes, they alternate, and stored + batched equals the number of rows whose last delivered delta was +1. |
| CounterOrder.OrderedRunsNeverClamp | src/db/writer.rs:96-101 | Under that ordering no flush of any run clamps any counter, and every counter with its deltas in flight is exactly its rows, also for posts created in the run. |
| CounterOrder.FlushNowSettles | src/db/writer.rs:82-87 | Once handlers are idle and flush_now is answered, with any timer ticks in between, every counter equals its rows and nothing is in flight; it is answered when the channel has been worked off. |
| CounterOrder.DisciplinedRun | src/api/posts.rs:176-202 | Sequential likes and unlikes per user and post, and comment deltas in job order, imply that ordering in every run. |
| CounterOrder.DisciplinedRunsAreExact | src/api/posts.rs:309-343 | Under that discipline and for every counter: no clamp, exact accounting at every moment, exact counters once idle and flushed. |
| CounterOrder.OverlapDrifts | src/api/posts.rs:183-204 | Without it: an overlapping like and unlike leave a post showing one like while it has no like row and nothing is in flight. |
| Coalescing.LowestIsLeast | src/db/writer.rs:39 | Lowest is the minimum over all running sums of a delta stream and is attained. |
| Coalescing.OneByOneReflects | src/db/writer.rs:99 | Clamping after every delta ends at the plain sum plus the depth of the lowest dip below zero. |
| Coalescing.OneBatchExact | src/db/writer.rs:39-42 | A coalesced batch never ends above the one-by-one counter, and ends equal if and only if no running sum dips below zero or the lowest one is the last. |
| Coalescing.CoalescingRefinesOneByOne | src/db/writer.rs:34-55 | From any reachable moment of a run, wherever timer, threshold and requests place flushes, for posts there or created later: never above the one-by-one counter that starts from what is shown, and equal to it whenever no running sum dips below zero. |
| CounterWriter.Writer.FlushBatch | src/db/writer.rs:90-109 | Applying the batch entry by entry in any map order gives the flush specification; zero deltas and missing rows change nothing; the map is emptied. |
| CounterWriter.Writer.RunLike | src/api/posts.rs:161-175 | INSERT OR IGNORE by affected-row count is the like job: a delta exactly when the row is new, an error for a missing or deleted post. |
| CounterWriter.Writer.RunUnlike | src/api/posts.rs:192-199 | DELETE by affected-row count is the unlike job, on deleted posts too. |
| CounterWriter.Writer.RunCreateComment | src/api/posts.rs:312-339 | The comment job with its visibility and parent checks. |
| CounterWriter.Writer.RunDeleteComment | src/api/discover.rs:263-285 | The delete job as CounterRules.DeleteRule characterises it: by comment author or post author, once. |
| CounterWriter.Writer.ReceiveOne | src/db/writer.rs:35-53 | One turn of the actor on its channel, with the flush at 500 distinct counters. |
| CounterWriter.Writer.Serve | src/db/writer.rs:33-56 | The actor loop under any schedule is the run the counter theorems are about. |
| RateLimiter.Limiter.PerMinute | src/api/ratelimit.rs:29-36 | A rate of zero counts as one; capacity and refill follow it; no buckets. |
| RateLimiter.Limiter.Check | src/api/ratelimit.rs:39-59 | Evict above 10 000 entries, find or create the bucket, refill up to the cap, charge a whole token or refuse and keep the fraction; what that decides is RateLimiter.RefusedIffBoundBreaks. |
| RateLimiter.Limiter.CheckAll | src/api/ratelimit.rs:39-59 | Successive checks decide as the run function the limiter theorems are about. |
| RateLimiter.IdleIsFull | src/api/ratelimit.rs:42-45 | A bucket idle for 600 seconds is full. |
| RateLimiter.EvictionIsUnobservable | src/api/ratelimit.rs:39-59 | For every run the decisions equal those of a limiter that never evicts. |
| RateLimiter.ThroughputBound | src/api/ratelimit.rs:50-58 | In every stretch of every run an address gets at most rate + rate * T / 60 requests through. |
| RateLimiter.SpacedIsNeverRefused | src/api/ratelimit.rs:46-58 | A request at least 60 / rate seconds after each earlier one of its address is allowed, whatever others do. |
| RateLimiter.BurstIsExact | src/api/ratelimit.rs:105-112 | Of n simultaneous requests from a new address exactly the first max(rate, 1) are allowed. |
| RateLimiter.RefusedIffBoundBreaks | src/api/ratelimit.rs:50-58 | The exact law: a request is refused if and only if, for some stretch from an earlier request of its address to it, letting it through would exceed rate + rate * T / 60. |
| RateLimiter.TrimKeepsRecent | src/api/ratelimit.rs:42-45 | Up to 10 000 buckets none is dropped; above, exactly those idle for 600 seconds are. |
| RetryQueue.BatchIsPicked | src/pinning/worker.rs:32-42 | The batch query returns exactly the waiting rows with fewer than LIMIT waiting rows before them by timestamp, in order. |
| RetryQueue.HeadLeaves | src/push/worker.rs:47-55 | Without overtakers: after as many passes as the attempt cap the first batch has gone, and everyone behind has moved up by a batch. |
| RetryQueue.LeavesByDeadline | src/push/worker.rs:126-145 | A row with p waiting rows before it that no later row overtakes has left after cap * (p / batch + 1) passes, for every outcome and every other arrival. |
| RetryQueue.LeavesDespiteOvertakers | src/push/worker.rs:126-145 | With arrivals of any timestamp: a row with p waiting rows before it and o later rows that overtake it has left after cap + cap * (p + o) / batch passes. |
| RetryQueue.OvertakersCostMore | src/push/worker.rs:53-54 | With overtakers counted in, cap * ((p + o) / batch + 1) passes can be too few. |
| PinQueue.PinTable.Enqueue | src/pinning/mod.rs:10-24 | A cid is queued once: an existing job, in whatever state, is left as it is. |
| PinQueue.PinTable.Record | src/pinning/worker.rs:48-70 | One answer written to its row alone; pending keeps attempts < 5 and failed means attempts = 5; which answers pin and which fail is PinQueue.PinnedIffAgreed. |
| PinQueue.PinTable.RunOnce | src/pinning/worker.rs:27-73 | One pass, with jobs enqueued at every await: each job of the batch gets its answer, no other job changes, arrivals are fresh. |
| PinQueue.PinTable.Work | src/pinning/worker.rs:14-24 | The worker at successive ticks, with jobs enqueued during and between passes, produces a history the deadline theorems apply to. |
| PinQueue.PinPassIsPass | src/pinning/worker.rs:45-71 | A pin pass is a pass of the retry queue. |
| PinQueue.PinnedOrFailedByDeadline | src/pinning/worker.rs:31-71 | A job with p pending jobs before it is pinned or failed after 5 * (p / 10 + 1) passes if none overtakes it, and after 5 + 5 * (p + o) / 10 passes if o do. |
| PinQueue.SettledRowsStay | src/pinning/worker.rs:52-67 | Pinned and failed are final across passes and repeated enqueues. |
| PinQueue.InBatchIff | src/pinning/worker.rs:32-42 | The batch: pending jobs under five attempts with fewer than ten such before them, by creation time, then insertion. |
| PinQueue.PinnedIffAgreed | src/pinning/worker.rs:45-69 | Over every history a new job is pinned if and only if a pass had it in its batch and the service agreed, failed if and only if five passes had it and the service refused each time; attempts count the passes that had it. |
| PushTokens.DeadUntilRegistered | src/push/worker.rs:102-124 | In every possible log, after a token is answered dead there is no send to it, of any notification to any user, until it is registered again. |
| PushTokens.ActiveIff | src/api/notifications.rs:125-155 | A registration is active if and only if it was made, anew or again, and neither ended nor turned off since. |
| PushTokens.SendsGoToListed | src/push/worker.rs:84-103 | Every send goes to a token that was an active token of the user it was listed for. |
| PushWorker.DeadOfAll | src/push/worker.rs:114-126 | Counting dead tokens against listed ones decides whether every answer was dead. |
| PushWorker.Worker.Await | src/api/notifications.rs:112-158 | Between any two steps of a pass users register and unregister tokens, notifications arrive and are read, and nothing of that is an event of the worker. |
| PushWorker.Worker.ListActiveTokens | src/push/worker.rs:206-221 | Lists exactly the user's active tokens, each once, in any order; the listing is logged. |
| PushWorker.Worker.SendOne | src/push/worker.rs:103 | One request and its answer, with other requests served before it goes out and while it is under way; nothing else. |
| PushWorker.Worker.DeactivateToken | src/push/worker.rs:223-238 | Turns the token off for every user; logged. |
| PushWorker.Worker.FanOut | src/push/worker.rs:100-120 | What the worker does is exactly one send per token, in order, each awaited; failures are independent; the result is the dead tokens and the last error. |
| PushWorker.Worker.Deliver | src/push/worker.rs:83-145 | What the worker does is list the user's active tokens, send to each of them, turn off those answered dead; the verdict follows from these answers: done with no tokens or no error, done with an error when all are dead or at the eighth attempt, else retry. |
| PushWorker.Worker.MarkRow | src/push/worker.rs:240-311 | The four row updates: what each sets and what it leaves. |
| PushWorker.Worker.RunOnce | src/push/worker.rs:35-148 | One pass with the rest of the server active at every await: the worker's events are exactly the turns of the rows of the batch, in order; each is marked by the verdict on the tokens listed for it and sent to; every other row is at most read. |
| PushWorker.Worker.Work | src/push/worker.rs:22-32 | The worker at successive ticks: its events and tables form a history the theorems below apply to, and over all of it no dead token is sent to before it is registered again. |
| PushWorker.PushPassIsPass | src/push/worker.rs:47-55 | A push pass is a pass of the retry queue and keeps attempts at most 8, below 8 while unsent. |
| PushWorker.LeavesQueueByDeadline | src/push/worker.rs:126-145 | A notification with p pending ones before it is sent or read after 8 * (p / 50 + 1) passes if none overtakes it, and after 8 + 8 * (p + o) / 50 passes if o do; attempts never exceed 8. |
| PushWorker.SentOnceMarked | src/push/worker.rs:50-51 | A notification marked sent or read at the start of a pass is in no send of that pass or a later one. |
| PushWorker.InBatchIff | src/push/worker.rs:47-55 | The batch: unsent, unread notifications under eight attempts with fewer than fifty such before them, by creation time, then insertion. |
| PushWorker.TurnOutcome | src/push/worker.rs:79-145 | From the answers alone: a row is marked sent if and only if unwanted, all sends succeeded (or none was made), all tokens dead, or the eighth attempt; which error is kept; when an attempt is counted. |
| PushWorker.SendsOfTurns | src/push/worker.rs:102-120 | In a pass a wanted row of the batch is sent to exactly the tokens listed for it, each once and in order, an unwanted one to none. |
| PushWorker.ListedForRecipient | src/push/worker.rs:84 | What a pass lists is listed for the recipient of a wanted notification of the batch. |
| FcmError.ParseStatusOfSendError | src/push/fcm.rs:146-151 | The status read from a send error is the printed status up to its first whitespace, for every body. |
| FcmError.StatusSurvivesIffNoSpace | src/push/worker.rs:106-113 | It is the printed status if and only if that contains no whitespace. |
| FcmError.DeadIff | src/push/fcm.rs:161-169 | A failed send kills its token if and only if the status, up to its first whitespace, is UNREGISTERED, INVALID_ARGUMENT, SENDER_ID_MISMATCH or THIRD_PARTY_AUTH_ERROR. |
| Hub.Hub.Detach | src/ws/hub.rs:33-43 | First phase of unregister: the connection goes, an empty list is removed, and gone says whether it was the user's last. |
| Hub.Retain | src/ws/hub.rs:37 | Keeps every other connection in order. |
| Hub.Hub.Sweep | src/ws/hub.rs:44-50 | Second phase: the user leaves every room and empty rooms go. |
| Hub.Hub.SendToUser | src/ws/hub.rs:55-65 | Each open connection of the user gets the message once; true exactly when there is one. |
| Hub.Hub.BroadcastRoom | src/ws/hub.rs:86-99 | Undisturbed, each open connection of each member but the excepted gets the message exactly once, nobody else does. |
| Hub.BroadcastReachesOnce | src/ws/hub.rs:94-98 | With any other events between the sends: no connection is sent to twice, and a member's turn sends to exactly the sessions of that member open at that moment. |
| Hub.DeliveredIs | src/ws/hub.rs:61-63 | A delivery adds one copy to each open connection addressed and nothing to any other. |
| Hub.AudienceIs | src/ws/hub.rs:94-97 | A broadcast addresses exactly the connections listed for one of the users told. |
| Hub.Hub.JoinRoom | src/ws/hub.rs:67-74 | The room is created if need be and the user is in it. |
| Hub.Hub.LeaveRoom | src/ws/hub.rs:76-84 | The user is out and an empty room is removed. |
| Hub.StepKeepsWired | src/ws/hub.rs:21-43 | Every step, REST joins included, keeps each user's list exactly that user's open sessions, each once, with ids below the counter. |
| Hub.LeavesIffLast | src/ws/hub.rs:36-44 | A session goes on to sweep the rooms if and only if its user has no other open session when it ends. |
| Hub.StepKeepsValid | src/ws/session.rs:50-74 | A step keeps the hub consistent if and only if it is not a REST join by an absent user. |
| Hub.HubStaysConsistent | src/ws/hub.rs:13-51 | Over every interleaving: members are online or about to be swept, connection ids are unique and below the counter, no list or room is empty. |
| Hub.MembershipBegins | src/ws/session.rs:136-150 | Joining is the only way in: by an own open socket or the REST join. |
| Hub.MembershipEnds | src/ws/hub.rs:76-103 | A member loses a room exactly by an own leave, the close of the room or a sweep an own earlier session owed. |
| Hub.SweepDropsReturningUser | src/ws/hub.rs:43-50 | A user who reconnects and joins between the two phases ends up online and out of the room. |
| RefreshTokens.Store.RevokePresented | src/api/auth.rs:249-267 | Accepted exactly when known, unrevoked and unexpired, and then revoked. |
| RefreshTokens.HeldStep | src/api/auth.rs:241-288 | Every step changes a login's live tokens plus rotations in progress by +1 for its login, -1 for a logout with its live token, 0 otherwise. |
| RefreshTokens.OneTokenPerLogin | src/api/auth.rs:241-269 | Over every interleaving a login holds at most one live token or one rotation in progress. |
| RefreshTokens.SingleUse | src/api/auth.rs:257-265 | However many refreshes present one token, at most one is accepted. |
| RefreshTokens.AcceptedUntilUsed | src/api/auth.rs:49-73 | An issued token is accepted exactly until it expires, is accepted once or is logged out. |
| RefreshTokens.LogoutEndsIffLive | src/api/auth.rs:271-288 | A logout ends its login if and only if it presents the live token or there was nothing to end; an ended login stays ended. |
| RefreshTokens.TokensBelongToLogin | src/api/auth.rs:246-268 | Over every run each token, stored or still to be stored, belongs to the user who logged in at the start of its lineage. |
| BackupCodes.CodeTable.Replace | src/api/totp.rs:97-115 | The old codes go and the new ones are stored unused, or nothing changes if two collide. |
| BackupCodes.CodeTable.ConsumeCode | src/api/totp.rs:264-279 | Succeeds exactly for an existing unused code, which is then used. |
| BackupCodes.EachCodeOnceEachRequestOnce | src/api/totp.rs:243-279 | Over every interleaving each code of a batch is accepted at most once and each request uses at most one. |
| BackupCodes.TotpSparesCodes | src/api/totp.rs:187-191 | A request whose TOTP code matched uses no backup code. |
| BackupCodes.CodesAreConserved | src/api/totp.rs:97-115 | A batch always has its ten codes, and those used are as many as the successes since it was written. |
| BackupCodes.UnusedPlusUsed | src/api/totp.rs:209-217 | Unused plus used codes are ten. |
| BackupCodes.SecretLost | src/api/totp.rs:129-151 | A step leaves 2FA enabled without a secret precisely when it writes a confirmation after the secret was removed. |
| BackupCodes.SecretKeptThroughout | src/api/totp.rs:129-151 | Throughout a run 2FA is enabled only with a secret if and only if no confirmation is written while the secret is missing. |
| BackupCodes.EnabledHasSecret | src/api/totp.rs:124-153 | While one user's 2FA requests do not overlap it never is. |
| BackupCodes.OverlapLosesSecret | src/api/totp.rs:192-201 | Two overlapping confirmations with a disable between their writes leave it enabled with no secret and no codes. |
| SecondFactor.AcceptedIff | src/api/totp.rs:243-260 | Over every run a 2FA request is accepted if and only if its TOTP check was answered with yes (a verification while enabled with a secret, a disable past its password, a confirmation of a secret not yet enabled) or a backup code was accepted for it. |
| SecondFactor.UnlockedIff | src/api/totp.rs:166-187 | A disable is past its password and before its second read if and only if it started with the right password while enabled and has not read since. |
| SecondFactor.KindStays | src/api/totp.rs:124-203 | A request stays of the kind it started as. |
| SecondFactor.WritesAre | src/api/totp.rs:97-115 | Only a confirmation enables; only enable sets a secret, with ten unused codes and disabled; only an accepted disable removes them. |
| SecondFactor.UsableCodes | src/api/totp.rs:264-279 | After enable the usable codes are its ten, less those accepted since. |
| Totp.BinIsDynamicTruncation | src/api/totp.rs:308-313 | For every 20-byte MAC the four bytes are in bounds and the masks and shifts give the dynamic truncation of section 5.3 of RFC 4226, below 2^31. |
| Totp.HotpIsSixDigits | src/api/totp.rs:314 | The printed value is exactly six digits and parses back to the truncation mod 10^6. |
| Totp.AcceptsExactlyTheWindow | src/api/totp.rs:285-302 | A code is accepted if and only if, stripped of whitespace at its ends and of blanks inside, it is six digits whose value is the standard's for a counter c with c, c + 1 or c - 1 equal to t / 30 modulo 2^64 (section 5.2 of RFC 6238). |
| Totp.Readable | src/api/totp.rs:292 | Every text can be read that way: its stripped part and the places of its characters other than a blank exist. |
| Cursor.Limit | src/api/mod.rs:182-184 | 20 when absent, else the number from 1 to 50 nearest to the requested one. |
| Cursor.CursorRoundTrip | src/api/mod.rs:187-200 | Every i64 timestamp with every id survives cursor_of and keyset, and the comment list's own reader. |
| Cursor.ParsesIff | src/api/mod.rs:192 | Which texts are read as a 64-bit number, and as which. |
| Cursor.CursorReaders | src/api/posts.rs:213-220 | On every other text: both readers take the first page without a comma; with a comma but no number the general one takes the first page and the comment list keeps the id. |
| Keyset.PageExists | src/api/feed.rs:19-35 | The page query has an answer on every table. |
| Keyset.PageUnique | src/api/feed.rs:19-35 | It has only one. |
| Keyset.NextStartsAtLast | src/api/users.rs:210-219 | A page's cursor resumes at its last row. |
| Keyset.WalkDescends | src/api/feed.rs:27-36 | A walk returns rows in strictly descending order, none twice, whatever changes between pages. |
| Keyset.WalkMissesNothing | src/api/feed.rs:27-36 | A finished walk has returned every row present throughout. |
| Keyset.WalkInventsNothing | src/api/discover.rs:155-170 | Every row of a page was in the table when that page was read. |
| Keyset.WalkEnds | src/api/users.rs:210-213 | With finitely many rows ever, a walk ends after at most one page more than they fill. |
| Keyset.SentinelAdmits | src/api/mod.rs:186-194 | The first page's sentinel admits exactly the rows before the last representable second, and of that second those whose id is empty or starts before "~". |
| Keyset.WalkIsTheSortedTable | src/api/feed.rs:11-38 | On a table that does not change, a finished walk is the sorted table. |
| LikePattern.EscapedIsOnePass | src/api/discover.rs:34 | The three replaces in their order equal escaping each special character once. |
| LikePattern.PatternMeansContains | src/api/discover.rs:34-42 | The pattern matches a string if and only if the query stands somewhere in it letter by letter, up to the case of ASCII letters. |
| LiveLog.Playlist.Announce | src/api/live.rs:108-144 | The checks in their order, and the chunk stored exactly when host, live and slot free; first exactly when the stream had none. |
| LiveLog.Playlist.EndStream | src/api/live.rs:173-187 | Ends exactly a live stream of the caller. |
| LiveLog.OnePinStep | src/api/live.rs:132-149 | Every step keeps: first-chunk pins done or owed are one for a stream with chunks, none otherwise. |
| LiveLog.LogIsPlaylist | src/api/live.rs:115-163 | Over every interleaving no slot is broadcast twice and only stored chunks with their stored cid are; once handlers are done the log is the playlist and each stream with chunks has exactly one pin. |
| LiveLog.NothingStoredAfterEnd | src/api/live.rs:129-131 | After the end a stream's playlist never changes. |
| LiveLog.AnnounceRule | src/api/live.rs:108-142 | What decides each answer; a chunk is stored if and only if number and cid are in form, the stream is live, the caller its host and the slot free. |
| LiveLog.StreamRule | src/api/live.rs:173-187 | A stream keeps its host, is live from its creation and ends exactly by its host's end. |
| LiveLog.StoredByHost | src/api/live.rs:126-128 | Over every run each stored chunk was announced by the host of its stream. |
| DmThreads.CanonicalIffSamePair | src/api/dm.rs:15-21 | Two pairs are stored alike if and only if they are the same two users in either order. |
| DmThreads.ThreadTable.GetOrCreate | src/api/dm.rs:78-112 | Finds the pair's thread or stores one under the new id, or fails for oneself, an unknown user or a taken id. |
| DmThreads.OneThreadPerPair | src/api/dm.rs:78-130 | Over every run two requests get the same thread if and only if they are about the same two users, and each user then finds the other as peer. |
| DmThreads.PeerIff | src/api/dm.rs:536-542 | Exactly the two members have a peer in a thread, each the other; anyone else is refused. |
| DmThreads.AnswerRule | src/api/dm.rs:83-109 | When a request fails and when a thread is stored, and for whom. |
| DmThreads.NewThreadsAreProper | src/api/dm.rs:83-98 | Every thread stored in a history joins two different users, one asking and the other existing. |
| Reactions.ReactTwice | src/api/dm.rs:489-511 | Reacting twice gives the same rows if there was no reaction, the same emoji under a new id and time if it was this one, and no reaction otherwise; so clients see the state restored if and only if there was no other reaction. |
| Reactions.ReactOnce | src/api/dm.rs:489-511 | Reacting once: the same emoji goes, another takes its place under the old id, none before means a new row; no other reaction changes. |
| Reactions.ClearOnce | src/api/dm.rs:449-452 | Clearing removes the caller's reaction and no other. |
| Reactions.ReactionTable.ReactCore | src/api/dm.rs:479-513 | Toggle off, swap or insert; accepted exactly for the two members of the thread, and a stranger's request changes nothing. |
| Reactions.ReactionTable.ClearMine | src/api/dm.rs:445-455 | Removes exactly the caller's reaction; accepted exactly for the two members. |
| Reactions.ReactionTable.PayloadFor | src/api/dm.rs:559-603 | For members: entries strictly ascending by emoji, one for every emoji used, each with its count, all its users sorted, and mine exactly when I am one. |
| Reactions.PayloadPartitions | src/api/dm.rs:578-600 | The counts add up to the rows, every reactor is in exactly one entry, and at most one entry is mine. |

## Left out

- Hard deletion of posts (`src/api/posts.rs:128-133`) and its cascades: posts are only soft-deleted here.
- The flush when the writer's channel closes (`src/db/writer.rs:48-51`): it ends the run.
- Floating-point rounding in the limiter: tokens and times are real numbers.
- 64-bit overflow of counters, connection ids and attempt counts.
- HMAC-SHA1, SHA-256, Argon2, base32, JWT and random generation: arbitrary functions or new values.
- Hub.Hub.BroadcastRoom: the method sends to all members with no other request in between; what holds when requests come between the sends (`src/ws/hub.rs:94-98`) is stated by Hub.BroadcastReachesOnce on the transition system, not by the method.
- The outbound pump of a socket (`src/ws/session.rs:53-59`): a queue is open or closed.
- Push preferences: the query never succeeds, so what the code would do with them is arbitrary here.
- The list of a user's own deleted posts (`src/api/social.rs:403-415`): it filters on one column and builds its cursor from another, so the walk theorems do not apply to it.
- The text of push headlines, the truncation of FCM bodies, and the cached FCM access token.
- Length limits on search queries and comments, and a NUL character inside a LIKE operand.
- Direct messages themselves, read marks, emoji normalisation, and what a reaction update notifies.
- Follows, blocks, mutes, saves, reports, stories, share pages, media uploads and the HTTP layer: single-row updates or plumbing without an invariant across operations.
- Failing reads and writes: a pass of a worker that stops half-way on a database error is not modelled.
