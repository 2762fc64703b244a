# Verified models of the unpod backends

This project models the parts of the unpod services that carry real invariants, and proves them.
`dafny verify dfyconfig.toml` checks everything. One module models one component:

| module | component |
|---|---|
| `SonyFlake`, `SonyFlakeRuns` (over `Bits`, `Decimal`) | the distributed id generator: one call, the 39/8/16-bit packing, and runs of many machines with restarts |
| `Sse`, `SseStream` | the server-sent-event printer, the event-stream parser of the WHATWG HTML Living Standard (sections 9.2.5 and 9.2.6), and the stream generator with its heartbeats |
| `Throttling` | the sliding-window rate limiter and its cached history |
| `Centrifugo` | the double-checked locking singleton, as interleaved thread steps |
| `StrongestRole`, `EntityChain`, `RoleCache` | the role that decides access, the permission chain of an entity, and the role cache with its invalidation |
| `Metrics`, `MetricRuns`, `BatchMarking` | the incremental averages, and the background job that flips the `calculated` flags they read |
| `RetryCron`, `Otp` | the trigger-event cron and the one-time-code resend machine |
| `Slugs`, `Numbers` | the allocators of unique slugs and of serial numbers |
| `NestedDict` | reading and writing nested dictionaries in place |

Conventions. Code that updates fields, rows or lists is a class whose methods change them in place;
each method's contract equates the new state with a function of the old one, and the theorems are
about runs of that function. A run is a sequence, and a property of every run is proved by induction
on its last element. Clock readings are inputs of each step, so "under any clock" means for all
inputs. Exceptions are `Result` or `Option` values. Floats are reals; where rounding is part of the
code it is written out and its error bounded.

Where the code differs from its documentation, or does what a reader may not expect, the model follows the code:

- The generator's docstring names 2014-09-01 as the default start; the code uses 2013-05-01.
- A rollover sleeps ten times as long as the tick it borrowed: ticks are 10 ms and the formula counts
  in tens of them. Restart safety needs only that the sleep is long enough.
- `get_elapsed_time` inverts a decoded timestamp only for a generator whose start is the default epoch.
- The cron's `"wait"` result is a non-empty string and settles the event; the branch for it is dead.
- `_get_client` promises a client or None if not configured; a reset between its lock release and its
  last read makes it return None with a valid configuration and a successful construction, unless a
  later caller has published a client by then.
- Call logs without an organization are never marked as calculated, and a batch full of them stops
  the marking for good.
- The stream loop means to skip messages of an invalid format. It skips malformed JSON, but a JSON
  payload that is no object raises and ends the stream, so that later messages are lost.
- A log without a duration or cost still weighs in the averages, as if it had the average of the others.
- A user without a role, logged in or not, gets the viewer's operations.
- Reading an average changes it as long as its new logs are not marked.
- The number generator counts wrongly when its prefix consists of digits alone.

## Model

| member | source | states |
|---|---|---|
| SonyFlake.SonyFlake.constructor | apps/backend-core/unpod/common/sonyflake.py:95-102 | A new generator stands at the clock's tick with the sequence full, so its first id already needs a later tick. |
| SonyFlake.SonyFlake.NextId | apps/backend-core/unpod/common/sonyflake.py:133-151 | One call, in place: the new fields, the id or the time-limit error, and the sleep made; under any clock the fields strictly increase, the time is never left behind the tick read, and no rollover asks for a sleep that is not positive. |
| SonyFlake.SleepIsPositive | apps/backend-core/unpod/common/sonyflake.py:180-187 | The sleep for n borrowed ticks lies between 0.09n and 0.1n seconds, wherever in its tick the clock stands. |
| SonyFlake.SequenceWraps | apps/backend-core/unpod/common/sonyflake.py:139-147 | The bit mask is arithmetic modulo 256, so a rollover happens exactly after sequence 255. |
| SonyFlake.NextStateIncreases | apps/backend-core/unpod/common/sonyflake.py:141-150 | Under any clock reading, backward jumps included, a call moves (elapsed time, sequence) strictly forward: to the very next position, or to the start of a later tick the clock has reached. |
| SonyFlake.NextStateTakesUpClock | apps/backend-core/unpod/common/sonyflake.py:141-150 | A tick later than the generator's is always taken up, at sequence 0, and no other tick moves it by more than one position. |
| SonyFlake.RunTicksAdvances | apps/backend-core/unpod/common/sonyflake.py:133-151 | N calls under any clock pass at least N positions. |
| SonyFlake.RateBound | apps/backend-core/unpod/common/sonyflake.py:133-151 | N calls on a new generator advance its elapsed time by at least N/256 ticks, rounded up, under any clock. |
| SonyFlake.IdIsWeightedSum | apps/backend-core/unpod/common/sonyflake.py:160-170 | The shifted fields never overlap: the bitwise or is the sum of the fields with weights 2^24, 2^16 and 1, for every time below 2^39, and an error beyond. |
| SonyFlake.DecomposeFields | apps/backend-core/unpod/common/sonyflake.py:189-208 | On every integer, the masks and shifts pick the quotients and remainders the bit layout stands for. |
| SonyFlake.DecomposeUndoesPacking | apps/backend-core/unpod/common/sonyflake.py:153-158 | Decomposing an issued id recovers time, sequence and machine, and its top bit is 0 exactly for a non-negative time. |
| SonyFlake.PackingUndoesDecompose | apps/backend-core/unpod/common/sonyflake.py:160-170 | Packing the parts of any 63-bit id rebuilds that id. |
| SonyFlake.IdOrderIsFieldOrder | apps/backend-core/unpod/common/sonyflake.py:153-158 | Ids are ordered as (time, sequence, machine) are, and equal ids have equal fields. |
| SonyFlake.IssuedTimestampIsShort | apps/backend-core/unpod/common/sonyflake.py:176-177 | The cut to ten digits never fires on the timestamp of an issued id. |
| SonyFlake.LongTimestampIsCut | apps/backend-core/unpod/common/sonyflake.py:176-177 | A longer timestamp loses its digits beyond the tenth; one in milliseconds is taken to whole seconds. |
| SonyFlake.ElapsedTimeOfDecoded | apps/backend-core/unpod/common/sonyflake.py:172-178 | `get_elapsed_time` of a decoded timestamp is the id's time rounded down to a whole second, shifted by the distance of the generator's start from the default epoch. |
| SonyFlake.ElapsedTimeIsCloseExactlyAtEpoch | apps/backend-core/unpod/common/sonyflake.py:172-200 | It is at most the id's time and within 99 ticks of it, for all ids, if and only if the generator starts at the default epoch. |
| SonyFlakeRuns.LogStaysBelowSystem | apps/api-services/libs/core/sonyflake.py:126-144 | In every run of starts and calls on any machines, with any clocks, in which no restart reads a clock behind the generator it replaces: no id ever returned lies beyond its machine's present state, and each machine's ids were returned in increasing order. |
| SonyFlakeRuns.IdsAreUnique | apps/backend-core/unpod/common/sonyflake.py:133-158 | All ids of such a run are pairwise distinct over all machines and increase on each machine, provided no restart reads a clock behind the generator it replaces. |
| SonyFlakeRuns.SleepReachesBorrowedTick | apps/backend-core/unpod/common/sonyflake.py:148-150 | The sleep always carries the clock to the tick the rollover borrowed. |
| SonyFlakeRuns.NeverAheadOfClock | apps/backend-core/unpod/common/sonyflake.py:140-151 | With a clock that does not step back, no call returns while its generator is ahead of the clock. |
| SonyFlakeRuns.SteadyNeverAhead | apps/backend-core/unpod/common/sonyflake.py:133-151 | So over every run no generator is ahead of its machine's last clock reading. |
| SonyFlakeRuns.IdsCarryTheirTime | apps/backend-core/unpod/common/sonyflake.py:133-151 | With clocks that do not step back, the tick in every id of every run lies between the clock's ticks at the call and at its return. |
| SonyFlakeRuns.SteadyClocksAreAdmissible | apps/backend-core/unpod/common/sonyflake.py:95-102 | With such clocks every restart meets the proviso of `IdsAreUnique`, however many restarts there are. |
| SonyFlakeRuns.RestartSafety | apps/backend-core/unpod/common/sonyflake.py:95-102 | With such clocks, ids returned after a restart exceed every id the machine returned before it. |
| SonyFlakeRuns.RestartGuardIsExact | apps/backend-core/unpod/common/sonyflake.py:99-100 | A replacement generator issues only later positions, whatever the clock then does, if and only if it was constructed at or after the old generator's tick. |
| Bits.OrDisjoint | apps/backend-core/unpod/common/sonyflake.py:156-158 | Or-ing a shifted field with a field that fits below it is addition, on unbounded integers of either sign. |
| Bits.AndShiftedMask | apps/backend-core/unpod/common/sonyflake.py:194-198 | A shifted run of one bits keeps exactly that field in place. |
| Sse.FormatSseMessage | apps/backend-core/unpod/notification/sse.py:61-77 | The list of lines, joined and closed, is the message's block: each line terminated, then one empty line. |
| Sse.FormatSseComment | apps/backend-core/unpod/notification/sse.py:80-82 | A comment is a block of one comment line. |
| Sse.JoinedBlock | apps/backend-core/unpod/notification/sse.py:77 | Joining with newlines and adding two is terminating every line and one empty line. |
| Sse.ItemIsRead | apps/backend-core/unpod/notification/sse.py:43-82 | A client of the standard between two events reads a printed block as exactly that one event, or, for a comment, as nothing; id and retry persist as the standard says. |
| Sse.RoundTrip | apps/backend-core/unpod/notification/sse.py:43-82 | The standard's parser, given the concatenated output of any messages and comments with clean headers, dispatches exactly the messages, in order, with type, data and last event id. |
| Sse.DispatchedAreClean | apps/backend-core/unpod/notification/sse.py:63-67 | On any stream whatever, the parser never dispatches a type or id with a line break, or an id with a NUL. |
| Sse.RoundTripExactlyWhenClean | apps/backend-core/unpod/notification/sse.py:63-67 | For line-free bodies, what is read equals what was written if and only if every event name and id is a single line and no id holds a NUL. |
| SseStream.SSEStreamGenerator.constructor | apps/backend-core/unpod/notification/sse.py:205-211 | A new generator is neither running nor subscribed. |
| SseStream.SSEStreamGenerator.SendHeartbeatIfNeeded | apps/backend-core/unpod/notification/sse.py:224-230 | A heartbeat is sent exactly when the interval has passed, and the gap is below the interval afterwards unless the interval is not positive. |
| SseStream.SSEStreamGenerator.TakeTurn | apps/backend-core/unpod/notification/sse.py:257-275 | One turn of the loop, in place: the frames it adds, the fields it leaves, and whether the generator goes on. |
| SseStream.SSEStreamGenerator.Stream | apps/backend-core/unpod/notification/sse.py:232-281 | The generator's output and final fields for every sequence of polls and every consumer, who may stop or close it at any frame. |
| SseStream.SSEStreamGenerator.Stop | apps/backend-core/unpod/notification/sse.py:283-292 | Stopping leaves the generator neither running nor subscribed. |
| SseStream.MessagesInArrivalOrder | apps/backend-core/unpod/notification/sse.py:241-270 | The message frames are the "connected" frame and then one frame per well-formed payload, in arrival order: all of them in a live stream, a prefix in an ended one. |
| SseStream.LiveExactlyWhenObjects | apps/backend-core/unpod/notification/sse.py:256-270 | When the consumer only reads, the stream is live if and only if every JSON payload so far was an object; malformed JSON does not end it. |
| SseStream.MessagesUntilRaise | apps/backend-core/unpod/notification/sse.py:256-270 | When the consumer only reads, the messages sent are exactly the "connected" one and the well-formed payloads up to the first JSON payload that is no object, which raises and ends the stream. |
| SseStream.PayloadIsSent | apps/backend-core/unpod/notification/sse.py:261-267 | A turn sends a published payload as one message that a reader takes as one event with its own data, event name and timestamp; each missing, null or empty field has its stated default. |
| SseStream.HeartbeatsAreSpaced | apps/backend-core/unpod/notification/sse.py:224-275 | Under any clock, each heartbeat follows the previous one, or the subscription, by at least the interval. |
| SseStream.NoLateHeartbeat | apps/backend-core/unpod/notification/sse.py:273-275 | In a stream that is live or was ended by `stop()`, the time of the last heartbeat check is less than the interval past the last heartbeat. |
| SseStream.HeartbeatsAreInvisible | apps/backend-core/unpod/notification/sse.py:80-82 | To a reader, any interleaving of messages and heartbeats is the messages alone. |
| SseStream.ClientReceivesPayloads | apps/backend-core/unpod/notification/sse.py:232-275 | End to end, for line-free bodies and clean headers: from the bytes of any stream a standard client has received exactly the messages sent, in order: the "connected" event and every well-formed payload while the stream is live, a prefix of them once it has ended. |
| SseStream.ClientReceivesUntilRaise | apps/backend-core/unpod/notification/sse.py:232-281 | In terms of what was published, for a consumer that only reads: the client receives the "connected" event with its data and each payload's own event, up to the first JSON payload that is no object, and all of them if and only if no payload comes after it; its reconnection time is the configured one. |
| Throttling.UnpodRateThrottler.constructor | apps/backend-core/unpod/common/throttling.py:20-21 | A new throttler, one per request, has the given rate and works on the shared cache as it finds it. |
| Throttling.UnpodRateThrottler.AllowRequest | apps/backend-core/unpod/common/throttling.py:23-46 | One request, in place: its answer and its own cache entry afterwards; every other key is untouched, and without a rate or key everything is allowed. |
| Throttling.PruneCountsWindow | apps/backend-core/unpod/common/throttling.py:40-43 | Popping old entries off the tail of a descending history leaves as many as lie in the window. |
| Throttling.LookupPrunesAlike | apps/backend-core/unpod/common/throttling.py:37-43 | Pruning what the cache returns, expired or not, gives the same list as pruning the times of everything ever accepted. |
| Throttling.RefusedExactlyWhenFull | apps/backend-core/unpod/common/throttling.py:37-46 | Over every run with a clock that does not step back, a request is refused exactly when its window already holds the permitted number of accepted requests. |
| Throttling.WindowBound | apps/backend-core/unpod/common/throttling.py:40-46 | No window of the duration, wherever it lies, holds more accepted requests than permitted. |
| Throttling.TenPerDay | apps/backend-core/unpod/common/throttling.py:20-21 | At the rate this throttler has, no 24 hours ever hold more than ten accepted requests. |
| Throttling.ExpiryChangesNothing | apps/backend-core/unpod/common/throttling.py:37 | Over every such run, a cache that never expired anything would give the same answers. |
| Throttling.ExpiredIsForgotten | apps/backend-core/unpod/common/throttling.py:37 | From its expiry on an entry is forgotten: the request is judged and stored as the first of its key, under any clock. |
| Throttling.ProbesLeaveNoTrace | apps/backend-core/unpod/common/throttling.py:46 | Deleting the `return_bool` requests from any run, under any clock, changes neither the cache nor any accepted request. |
| Throttling.SteppingBackRefusesEarly | apps/backend-core/unpod/common/throttling.py:42-45 | For every clock sequence there is, at its first step back, a rate under which that request is refused although fewer requests than permitted lie in its window. |
| Throttling.WindowExactWhenClockSteady | apps/backend-core/unpod/common/throttling.py:37-46 | The exact condition: for a sequence of clock readings, every request is answered as the count over its window, at every rate, if and only if the clock never steps back. |
| Centrifugo.InvHolds | apps/backend-core/unpod/common/centrifugo.py:82-121 | Throughout every interleaving of `_get_client` and `reset_client`: the lock has one holder, published clients and resets alternate, and a thread's knowledge of the global stays true until a reset. |
| Centrifugo.MutualExclusion | apps/backend-core/unpod/common/centrifugo.py:98 | At most one thread is between acquiring and releasing the lock. |
| Centrifugo.ClientsBoundedByResets | apps/backend-core/unpod/common/centrifugo.py:98-110 | The clients ever published never exceed the resets plus one, under every interleaving. |
| Centrifugo.SameEpochSameClient | apps/backend-core/unpod/common/centrifugo.py:91-101 | Two calls that read a client with equally many resets behind them got the same client. |
| Centrifugo.SingletonWithoutResets | apps/backend-core/unpod/common/centrifugo.py:82-121 | Without resets every client returned is one and the same, and None is returned only to a thread that, at a step of that run, found the configuration invalid or failed in a construction of its own. |
| Centrifugo.EveryCallGetsTheClient | apps/backend-core/unpod/common/centrifugo.py:82-121 | So when no configuration is invalid and no construction fails, every call that returns in a run without resets returns the one client. |
| Centrifugo.CausesAreBacked | apps/backend-core/unpod/common/centrifugo.py:94-119 | In every run, each outcome blamed on a configuration or a construction has that failing step, by that same thread, in the run. |
| Centrifugo.LeavesEmptyHandedExactly | apps/backend-core/unpod/common/centrifugo.py:98-119 | A thread on its way out of the lock holds None if and only if its latest step was its own failed construction. |
| Centrifugo.NoneMeansOvertaken | apps/backend-core/unpod/common/centrifugo.py:91-121 | A call that returns None by reading the global was overtaken by a reset after it knew the global to be set. |
| Centrifugo.ReturnsNoneExactly | apps/backend-core/unpod/common/centrifugo.py:91-121 | The exact condition, at every return in every interleaving: the result is None if and only if the config was invalid, the caller's latest step was its own failed construction, or it reads the global without the lock, a reset has come since it knew the global to be set, and no client has been published since the last reset. |
| Centrifugo.OvertakenCallerGetsNone | apps/backend-core/unpod/common/centrifugo.py:121 | This does happen: a concrete interleaving gives None to a caller whose configuration was valid and whose construction succeeded. |
| Centrifugo.NoDeadlock | apps/backend-core/unpod/common/centrifugo.py:363-370 | Whenever a call is under way, some thread can take its next step. |
| StrongestRole.GetUserFinalRole | apps/backend-core/unpod/roles/services.py:386-397 | The fold with its early exit returns the last role of maximal rank among the ranked ones, and None exactly when none is ranked or the user is not authenticated. |
| StrongestRole.OwnerIsFinal | apps/backend-core/unpod/roles/services.py:395-396 | The early exit never changes the answer: whatever follows an owner, the final role is "owner". |
| StrongestRole.FinalRoleIsUnique | apps/backend-core/unpod/roles/services.py:391-397 | At most one role satisfies that description, so the fold has no freedom. |
| StrongestRole.RankedExactly | apps/backend-core/unpod/roles/constants.py:96 | Exactly four codes are ranked, viewers and commentors equally, below editors, and these below owners. |
| StrongestRole.OperationsGrowWithRank | apps/backend-core/unpod/roles/constants.py:31-96 | For every role type, a ranked role may do whatever a role of no higher rank, or an unranked one, may do. |
| StrongestRole.OwnersOnly | apps/backend-core/unpod/roles/constants.py:50-93 | Transferring and archiving is for owners alone, whatever the role type. |
| StrongestRole.EditorsToo | apps/backend-core/unpod/roles/constants.py:41-93 | Adding, editing, deleting, listing users, sharing and changing privacy is for owners and editors alone. |
| StrongestRole.EditorsOfPosts | apps/backend-core/unpod/roles/constants.py:70-87 | Streams and the superpilot are for owners and editors of posts alone. |
| StrongestRole.EveryoneViews | apps/backend-core/unpod/roles/constants.py:31-39 | Viewing is open to every role, and to none, in each known role type. |
| StrongestRole.AllButGuestsComment | apps/backend-core/unpod/roles/constants.py:70-87 | Comments are for posts, and open there to everyone but guests. |
| StrongestRole.NoRoleIsViewer | apps/backend-core/unpod/roles/utlis.py:13-15 | A user without a role, or with an unknown one, may do what a viewer may. |
| StrongestRole.FinalRoleGrantsUnion | apps/backend-core/unpod/roles/utlis.py:13-15 | When some role is ranked, the final role's operations are exactly the union of the operations of all the user's roles, for organization, space and post. |
| EntityChain.AncestorsFollowParents | apps/backend-core/unpod/roles/services.py:269-302 | The chain starts at the entity, takes a post's main post before its space and a space's organization, and stops only where there is no parent. |
| EntityChain.ChainOfPost | apps/backend-core/unpod/roles/services.py:270-294 | The chain of a reply is itself and its main post's chain; only a post without a main post goes on to its space; its row carries its own id and privacy and the next one's id. |
| EntityChain.ChainOfSpace | apps/backend-core/unpod/roles/services.py:298-322 | The chain of a space is itself and its organization, with their own ids and privacies. |
| EntityChain.GetEntityPermissions | apps/backend-core/unpod/roles/services.py:243-324 | The recursion terminates and returns exactly the rows of the chain up to the organization and the user's permissions along it, membership row ids included; a chain that ends at a space lacks that space's row, and one that ends at a post raises. |
| EntityChain.LoadPermissionMatrix | apps/backend-core/unpod/roles/permissions_manager.py:175-181 | The loaded matrix holds one row per line and privacy of the line, in order. |
| EntityChain.FilterPicksMatchingLines | apps/backend-core/unpod/roles/permissions_manager.py:79-93 | Splitting the comma-separated privacies and filtering the rows picks exactly the lines that name the role and list the privacy, once each, in order. |
| EntityChain.LineMatches | apps/backend-core/unpod/roles/permissions_manager.py:86-90 | A line matches the very role it names and any privacy it lists, and a user without a role matches lines for "None". |
| EntityChain.SourceMatrixIsWellFormed | apps/backend-core/unpod/roles/permissions_manager.py:146-172 | No line of the matrix names a privacy twice or one with a comma in it, which the previous row relies on. |
| EntityChain.PermissionManager.constructor | apps/backend-core/unpod/roles/permissions_manager.py:48-51 | A manager starts with the rows unannotated. |
| EntityChain.PermissionManager.FindUserPermissions | apps/backend-core/unpod/roles/permissions_manager.py:56-61 | The role of the user's first permission on that id, whatever the type of its entity. |
| EntityChain.FirstRoleExactly | apps/backend-core/unpod/roles/permissions_manager.py:58-61 | It is the role of the first permission with both the user and the id, and None if and only if there is no such permission. |
| EntityChain.PermissionManager.GetPermissions | apps/backend-core/unpod/roles/permissions_manager.py:95-121 | Every row, in place, gets its relationship, the role found for its id, and the matching operation lists; nothing else changes. |
| EntityChain.AnnotationIsOwnRoleExactly | apps/backend-core/unpod/roles/permissions_manager.py:56-61 | Whatever the user's memberships, every entity of a chain is annotated with the user's own role on it, if and only if no id is shared across types along the chain. |
| EntityChain.SharedIdMisleads | apps/backend-core/unpod/roles/permissions_manager.py:58-60 | For every chain with an id shared across types there are memberships under which an entity shows a role the user does not hold on it. |
| EntityChain.GetUserPermissionOnEntity | apps/backend-core/unpod/roles/services.py:228-240 | The whole request: each entity of the chain, in order, carries exactly the operation lists of the matrix lines for its role and privacy, and, when no id is shared across types along the chain, the user's own role on it; it raises exactly when the chain ends at a post. |
| RoleCache.RoleService.GetUserRolesByChild | apps/backend-core/unpod/roles/services.py:335-383 | A lookup of a space answers from the cache if it can, else from the tables, level by level, and caches the answer; nothing else changes. |
| RoleCache.RoleService.ProcessUpdatePermission | apps/backend-core/unpod/roles/services.py:56-114 | An update gives the first matching row the new role and drops that cache entry; without a row, without a role in it, for an owner, and for an unknown role it raises and changes nothing. |
| RoleCache.RoleService.ProcessDeletePermission | apps/backend-core/unpod/roles/services.py:117-166 | A deletion leaves no row of that user and space and drops that cache entry; without a row, without a role in it, and for an owner it raises and changes nothing. |
| RoleCache.RoleService.CreatePermission | apps/backend-core/unpod/roles/services.py:30-53 | A creation appends a row unless the same one exists, and leaves the cache alone. |
| RoleCache.KeyParts | apps/backend-core/unpod/roles/services.py:342 | Cache keys determine e-mail address, type and id, underscores in addresses included. |
| RoleCache.OtherKeyIsNoSpaceKey | apps/backend-core/unpod/roles/services.py:342 | The key of a post or main post is never the key of a space. |
| RoleCache.UpdateSetsCode | apps/backend-core/unpod/roles/services.py:108-111 | After an update the next lookup finds the new role in the first matching row. |
| RoleCache.FirstIsFirst | apps/backend-core/unpod/roles/services.py:219-225 | The row looked up is the first one of that user and owner, and there is none if and only if the table has none. |
| RoleCache.LevelsExactly | apps/backend-core/unpod/roles/services.py:375-381 | A lookup's answer holds exactly the non-empty codes of the first space row and the first organization row, the space's first. |
| RoleCache.OwnerStays | apps/backend-core/unpod/roles/services.py:91-92 | The owner of a space stays its owner over every run of lookups, updates, deletions and creations. |
| RoleCache.CreateIsIdempotent | apps/backend-core/unpod/roles/services.py:46-50 | Creating the same membership again changes nothing. |
| RoleCache.CreateKeepsCoherenceExactly | apps/backend-core/unpod/roles/services.py:30-53 | Creating a membership in a coherent store keeps it coherent if and only if nothing is cached for that user and space, or the creation cannot change the first row's code. |
| RoleCache.RunKeepsCoherence | apps/backend-core/unpod/roles/services.py:56-166 | Over every run of lookups, updates, deletions, guarded creations, organization-level writes, post lookups and expiries, each cached space entry carries the space-level code the table gives now. |
| RoleCache.LookupAnswersWithTableCode | apps/backend-core/unpod/roles/services.py:335-383 | So from an empty cache a lookup always answers with the table's own space-level code. |
| RoleCache.AncestorCodeCanBeStale | apps/backend-core/unpod/roles/services.py:342-345 | The organization-level code of a coherent cache can be stale: a concrete run still reports a deleted role. |
| RoleCache.OrganizationWriteKeepsCurrentExactly | apps/backend-core/unpod/roles/services.py:335-383 | The exact condition: when all cached answers are what the tables give, an organization-level write leaves them so if and only if it gives every user with a cached entry the code they had in the organization of that entry's space. |
| RoleCache.RunKeepsCurrent | apps/backend-core/unpod/roles/services.py:56-166 | Over every run of lookups, updates, deletions, guarded creations, post lookups, expiries and organization-level writes that meet that condition, every cached answer is current at both levels. |
| Metrics.Metric.constructor | apps/backend-core/unpod/metrics/models.py:87-88 | A metric starts with its stored text and unit. |
| Metrics.Metric.ReadAverage | apps/backend-core/unpod/metrics/serializers.py:100-134 | One read of "Avg Cost" (and of "Avg Duration", lines 55-86) stores and returns the folded average, in place, an empty stored text counting as 0; with no logs it stores 0 and keeps the unit, and a text that is no number raises and changes nothing. |
| Metrics.ReadRepeatedly | apps/backend-core/unpod/metrics/serializers.py:55-86 | k reads of one metric, in place, take its stored number through k steps of the law that the results on repeated reads are about. |
| Metrics.ReadWithIncompleteLogs | apps/backend-core/unpod/metrics/serializers.py:63-76 | New logs without a duration or cost stay out of the new average but count in its weight, each as if it had that average. |
| Metrics.CombineOfMeans | apps/backend-core/unpod/metrics/serializers.py:73-78 | Weighting the two means by their counts gives the mean of all logs together. |
| Metrics.CombineDampsError | apps/backend-core/unpod/metrics/serializers.py:76 | An error of the stored average shrinks by exactly the share of old logs. |
| Metrics.OneRound | apps/backend-core/unpod/metrics/serializers.py:55-86 | One arrival and one read leave the stored value no farther from the true mean than before, plus half a unit of the last place. |
| Metrics.ValueTracksMean | apps/backend-core/unpod/metrics/serializers.py:100-134 | From a value that is the mean of the calculated logs, n rounds of arrivals of any size, one read and marking keep it within n half-units of the last kept place of the true mean. |
| Metrics.DurationBound | apps/backend-core/unpod/metrics/serializers.py:55-86 | For "Avg Duration" that is n times 0.0005. |
| Metrics.CostBound | apps/backend-core/unpod/metrics/serializers.py:100-134 | For "Avg Cost" it is n times 0.005. |
| Metrics.ExactReadsClosedForm | apps/backend-core/unpod/metrics/serializers.py:73-78 | Before rounding, k reads without a mark give new + (old - new) * (old count / total)^k. |
| Metrics.StoredReadsNearExactReads | apps/backend-core/unpod/metrics/serializers.py:59-86 | With rounding, k reads without a mark stay within k half-units of that. |
| Metrics.UnroundedReadsAgreeExactly | apps/backend-core/unpod/metrics/serializers.py:73-78 | Before rounding, two reads without a mark agree if and only if there is no old log or the old average equals the new one. |
| Metrics.ReadMovesByShare | apps/backend-core/unpod/metrics/serializers.py:73-78 | Before rounding, a read moves the value towards the average of the new logs, by their share of all logs. |
| Metrics.SecondReadAgreesExactly | apps/backend-core/unpod/metrics/serializers.py:59-86 | Reading twice without a mark stores the same rounded value if and only if no log is new, or all are, or the new logs' share of the gap between the value and their average is less than half a unit of the last kept place, or exactly half a unit and that place is even. |
| Metrics.SecondReadCanDiffer | apps/backend-core/unpod/metrics/serializers.py:59-86 | Reading is not idempotent: with one old log of 0 and one new log of 1, the first two reads store 0.5 and 0.75. |
| MetricRuns.StoredNearValue | apps/backend-core/unpod/metrics/serializers.py:55-86 | In any interleaving of arrivals, reads and marks of any logs, the stored average is within half a unit of the last kept place, for each read, of what it would be without rounding. |
| MetricRuns.ReadMixes | apps/backend-core/unpod/metrics/serializers.py:64-82 | Before rounding, one read keeps of the value the share of marked logs and gives every unmarked log an equal share. |
| MetricRuns.ValueIsShared | apps/backend-core/unpod/metrics/serializers.py:55-86 | After any interleaving the unrounded average is the sum of the logs' amounts, and of the value at the start, each weighted by its share; the order of the events alone decides the shares. |
| MetricRuns.SharesMakeOne | apps/backend-core/unpod/metrics/serializers.py:55-86 | No share is ever negative, and all of them together make one: the average is always a weighted mean. |
| MetricRuns.UnreadMarkedNeverCounts | apps/backend-core/unpod/metrics/tasks.py:89-94 | A log that is marked before any read gave it a share never counts in the average, whatever happens later. |
| MetricRuns.MeanExactlyWhenSharesEqual | apps/backend-core/unpod/metrics/serializers.py:55-86 | An interleaving gives the true mean of all logs, whatever their amounts and the value at the start, if and only if it gives every log the same share. |
| BatchMarking.CallLogTable.ProcessUncalculatedCallLogs | apps/backend-core/unpod/metrics/tasks.py:63-102 | One call, in place: the table afterwards, the organization and product pairs recalculated, and no change at all if the call aborts. |
| BatchMarking.MarkIdsIsMarkBatch | apps/backend-core/unpod/metrics/tasks.py:64-94 | Collecting the ids of owned logs in the oldest batch and updating by id equals walking the table log by log. |
| BatchMarking.MarksExactlyOwnedOldest | apps/backend-core/unpod/metrics/tasks.py:64-94 | Log by log: a call marks exactly the owned logs among the oldest uncalculated ones, reverts none, and changes no other field. |
| BatchMarking.CallProgress | apps/backend-core/unpod/metrics/tasks.py:64-94 | A call marks all but at most the places that ownerless logs take up in its batch, and the ownerless logs stay. |
| BatchMarking.CallsProgress | apps/backend-core/unpod/metrics/tasks.py:51-102 | Over any sequence of calls, aborting or not, the owned logs left fall by that much per completed call. |
| BatchMarking.AllOwnedAreMarked | apps/backend-core/unpod/metrics/tasks.py:51-102 | With m ownerless logs, fewer than the batch size, and no arrivals, k owned logs are all marked after k/(batch size - m) completed calls, rounded up. |
| BatchMarking.AllMarkedExactlyWhenReachable | apps/backend-core/unpod/metrics/tasks.py:51-102 | The exact condition: some sequence of calls marks every owned log if and only if, for each owned log still to be marked, fewer ownerless logs than the batch size are older. |
| BatchMarking.ReachableAreMarked | apps/backend-core/unpod/metrics/tasks.py:51-102 | Under that condition as many completed calls as there are owned logs are enough, whatever calls abort in between. |
| BatchMarking.StuckExactlyWhenHeadOwnerless | apps/backend-core/unpod/metrics/tasks.py:65-82 | A call changes nothing if and only if no owned log is among the oldest uncalculated batch. |
| BatchMarking.StarvedForEver | apps/backend-core/unpod/metrics/tasks.py:65-82 | Once a full batch of ownerless logs is the oldest, no call marks anything again, whatever arrives later. |
| BatchMarking.StarvedForEverExactly | apps/backend-core/unpod/metrics/tasks.py:65-82 | No call marks anything again, whatever arrives later, if and only if the oldest uncalculated logs are a full batch of ownerless ones. |
| RetryCron.EventTable.ProcessEventCron | apps/backend-core/unpod/core_components/services.py:153-170 | One run, in place, over any slice the query may return and any handler results: the table afterwards and the count reported; the "wait" branch is never entered. |
| RetryCron.WaitingEventIsSettled | apps/backend-core/unpod/core_components/services.py:157-163 | A chosen event is settled exactly when its handler did not report failure, so "wait" settles it too. |
| RetryCron.RunUsesAttempts | apps/backend-core/unpod/core_components/services.py:154-169 | A run without arrivals uses up at least min(10, pending) of the attempts left to all events. |
| RetryCron.AttemptsAreBounded | apps/backend-core/unpod/core_components/services.py:154-169 | Over all runs, handler outcomes, choices of ten and events created in between, the attempts made at an event and those left to it never exceed what it was created with. |
| RetryCron.AtMostFourAttempts | apps/backend-core/unpod/core_components/services.py:154-169 | So no event, whenever it was created, is attempted more than four times. |
| RetryCron.RetryCountsAttempts | apps/backend-core/unpod/core_components/services.py:165-169 | As long as an event is not settled its counter is what it was created with plus its attempts so far. |
| RetryCron.GivenUpAfterFour | apps/backend-core/unpod/core_components/services.py:154-169 | An event created with no retries that never succeeds stays pending exactly until its fourth attempt. |
| RetryCron.NeverAfterSettling | apps/backend-core/unpod/core_components/services.py:154-169 | From the run after which an event is settled or exhausted, its row never changes and it is never attempted again, whatever is created meanwhile. |
| RetryCron.AllDoneAfterFourRunsEach | apps/backend-core/unpod/core_components/services.py:153-170 | Without arrivals, n pending events are all settled or exhausted after at most 4n runs, whatever ten each run picks. |
| RetryCron.AllDoneByTens | apps/backend-core/unpod/core_components/services.py:153-170 | Since a run attempts up to ten, 4n / 10 + 4 runs, rounded down, are enough. |
| Otp.OtpCache.GetStatus | apps/backend-core/unpod/common/redis.py:67-81 | One call, in place: the cache entry and the answer, with every other key untouched and the expiry kept on a resend. |
| Otp.OtpCache.SetCacheHelper | apps/backend-core/unpod/common/redis.py:18-28 | A resend lowers the counter and keeps code and expiry; without resends left nothing changes. |
| Otp.OtpCache.GetStatusPhoneEmail | apps/backend-core/unpod/common/redis.py:31-64 | The four branches decide both keys on the entries as first read; for distinct keys they equal two single-key calls, one after the other. |
| Otp.OneLifetime | apps/backend-core/unpod/common/redis.py:67-81 | Within one key lifetime exactly the first call and the first three resends succeed, always with the same code; the counter stays in 0..3 and no call moves the expiry. |
| Otp.LiveCallIsStep | apps/backend-core/unpod/common/redis.py:31-81 | As long as the key is live, a call on the whole cache, single or for two distinct keys, does to it one step of that machine. |
| Otp.CacheRunsMachine | apps/backend-core/unpod/common/redis.py:31-81 | Over any run of single and two-key calls on any keys, the entry and the answers of a live key are those of that machine, call by call. |
| Otp.ExpiredGrantsNew | apps/backend-core/unpod/common/redis.py:31-81 | A call that finds no entry, or finds it at its expiry or later, grants the new code with three resends for a whole time to live, 600 seconds for a pair. |
| Otp.OneLifetimeInCache | apps/backend-core/unpod/common/redis.py:31-81 | From the call that creates an entry until it expires, over any such run, a code is granted once and then for exactly the first three resends of that key: at most four times in all, always the same code, with the counter in 0..3 and the expiry never moved. |
| Otp.IndependentExactlyWhenDistinct | apps/backend-core/unpod/common/redis.py:31-64 | The two-key call refines two independent single-key machines, on every cache and at every time, if and only if the keys differ. |
| Otp.KeysDifferWithNumbers | apps/backend-core/unpod/common/redis.py:9-15 | For one device and prefix the two keys differ exactly when the e-mail address and the phone number do. |
| Otp.KeysDifferWithOtherParts | apps/backend-core/unpod/common/redis.py:9-15 | The same holds of the device, of the prefix and of the environment, the other parts being equal. |
| Slugs.CandidatesDiffer | apps/backend-core/unpod/common/query.py:43-54 | No two counters give the same candidate slug. |
| Slugs.TriedFit | apps/backend-core/unpod/common/query.py:47-54 | If the first n candidates are all taken, n rows exist to take them. |
| Slugs.UniqueSlug | apps/backend-core/unpod/common/query.py:40-56 | The loop stops within one test more than there are slugs, on an unused slug whose counter is the least possible. |
| Slugs.SlugTable.SaveInstance | apps/backend-core/unpod/core_components/models.py:242-251 | Saving gives a slug only to an instance without one and changes no other row, here excluding the instance itself as `Voice` does, or not, as `Tag`, `Plugin` and `PilotLink`. |
| Slugs.SavedHasSlug | apps/backend-core/unpod/core_components/models.py:242-251 | After a save the instance has the slug it had, or else a candidate of its base that no other row has; the slug is empty if and only if the base is and the empty text was free. |
| Slugs.SavesKeepDistinct | apps/backend-core/unpod/core_components/models.py:185-198 | Any sequential run of saves keeps the slugs pairwise distinct and never changes one already given. |
| Numbers.GenerateNewNumber | apps/backend-core/unpod/common/query.py:59-72 | Both branches, prefix present or absent, compute one function of the text; a remainder that Python's `int()` refuses raises. |
| Numbers.ParseUndoesPadding | apps/backend-core/unpod/common/query.py:65-71 | `int()` of the zero-filled rendering of any integer, negative ones included, is that integer. |
| Numbers.OtherTextRaises | apps/backend-core/unpod/common/query.py:63-65 | A text without digits, or with any character but digits, white space, signs and underscores, makes `int()` raise. |
| Numbers.NumberFollows | apps/backend-core/unpod/common/query.py:59-72 | For a prefix that is empty or not made of digits alone, the text of number k is followed by the text of number k + 1, also when k has outgrown its digits. |
| Numbers.IterateCounts | apps/backend-core/unpod/common/query.py:59-72 | For such a prefix, k iterations from the empty text yield the prefix and the zero-filled rendering of k. |
| Numbers.CountsExactlyWhenSeparable | apps/backend-core/unpod/common/query.py:61-65 | Every number is followed by its successor if and only if the prefix is empty or has a character that is not a digit. |
| Numbers.DigitPrefixBreaks | apps/backend-core/unpod/common/query.py:63 | For every other prefix some number has digits swallowed and is followed by a wrong one. |
| Numbers.NumbersSortAsText | apps/backend-core/unpod/common/query.py:71-72 | Below 10^digits the texts increase in lexicographic order. |
| Numbers.OrderBreaksAtPowerOfTen | apps/backend-core/unpod/common/query.py:71-72 | 10^digits sorts before the number generated just before it. |
| Numbers.SortedExactlyBelowPowerOfTen | apps/backend-core/unpod/common/query.py:71-72 | The numbers up to n sort as text in the order they were generated if and only if n is below 10^digits (10 for a width under one). |
| NestedDict.GetFromDict | apps/api-services/libs/core/dict.py:1-7 | Reading the dictionaries in memory gives what the tree they hold has at the path, or the same error: empty path, missing key, or an intermediate that is no dictionary. |
| NestedDict.SetInDict | apps/api-services/libs/core/dict.py:10-20 | Mutating in place, with missing and non-dictionary intermediates replaced, turns the held tree into the tree with the value set, and keeps it unshared. |
| NestedDict.GetComposes | apps/api-services/libs/core/dict.py:1-7 | Reading a longer path is reading its first part and then the rest inside what that holds, failures included; one key fails on a leaf, or where it is missing. |
| NestedDict.GetAfterSet | apps/api-services/libs/core/dict.py:10-20 | Reading a path just written gives the value. |
| NestedDict.SetAfterSet | apps/api-services/libs/core/dict.py:10-20 | Of two writes to a path the last one stands, and the first leaves no trace. |
| NestedDict.GetElsewhere | apps/api-services/libs/core/dict.py:10-20 | A path that is neither a prefix nor an extension of the written one reads the same as before, and if unreadable stays so. |
| NestedDict.GetBelow | apps/api-services/libs/core/dict.py:1-20 | Below the written path, reads go on inside the written value. |
| NestedDict.GetAbove | apps/api-services/libs/core/dict.py:1-20 | Above it, a read finds the dictionary that was there, or a new one, with the rest of the path written in it. |
| NestedDict.SetsCommute | apps/api-services/libs/core/dict.py:10-20 | Writes to paths apart from each other commute. |

## Left out

- SonyFlake.SonyFlake.constructor: takes the machine id as a 16-bit integer; the lookup of the id (environment variable, private IP address) and the refusals in `__new__` are not modelled.
- SonyFlakeRuns.IdsAreUnique: one generator per machine at a time, and the mutex makes each call one step; the sleep inside it is an input.
- SseStream.SSEStreamGenerator.Stream: `stop()` called from another thread while a turn is running, and exceptions out of Redis, are not modelled; the consumer may stop or close only where the generator is suspended.
- Sse.RoundTrip: the data is JSON text taken as given; that `json.dumps` yields no line break and `json.loads` undoes it is outside the model.
- Throttling.UnpodRateThrottler.AllowRequest: two requests racing between reading and writing one key's history are not modelled.
- Centrifugo.NoDeadlock: says that some thread can step, not that a fair scheduler lets every call return; clearing the configuration cache after a reset shows only as an arbitrary validity at each call.
- EntityChain.GetEntityPermissions: entities are finite trees, so a cyclic chain of main posts, on which the source recurses without end, cannot be written down.
- RoleCache.RunKeepsCoherence: for space entries, as the space lookup and the space branches of the writes make them; entries of posts appear only as other keys, edits of the role table itself and races between a lookup and a write are not modelled, and membership rows are touched only by the operations listed.
- Metrics.Metric.ReadAverage: floats are reals, the stored text of a number is that number, and the infinities that `float()` also reads are not modelled; runs are over complete logs; counts, totals and the other branches of the serializer are left out.
- BatchMarking.CallLogTable.ProcessUncalculatedCallLogs: the table is kept in creation order, and logs changed by others during a call are not modelled.
- RetryCron.EventTable.ProcessEventCron: messages are dropped, the handler is an input, and two overlapping runs are not modelled.
- Otp.OneLifetimeInCache: TTLs are exact, where Redis counts them in whole seconds, and calls for a pair name distinct keys; for equal keys see `Otp.IndependentExactlyWhenDistinct`.
- Slugs.SlugTable.SaveInstance: saves are sequential; the base slug is an arbitrary string, and explicit slugs, column lengths and `Tag`'s title case are left out.
- Numbers.GenerateNewNumber: `int()` is modelled on ASCII text, with signs, white space and underscores; digits of other scripts and the interpreter's limit on the length of a conversion are not.
- NestedDict.SetInDict: dictionaries shared between two places of a tree, and lists or strings as intermediates, are not modelled.
- HTTP views, serializer field lists, admin pages, settings, and the web, desktop and TypeScript front ends: no invariant beyond wiring.
- The databases, caches, queues, voice and media providers behind the services: a cache is a map with expiry, a table a sequence or map.
- Notifications, e-mail, logging, code generation, and the cryptographic helpers.
- The third copy of the id generator under `apps/super` repeats the algorithm modelled here; `removeKeyFromDict` drops top-level keys one by one, and pagination, soft delete and association updates are single queries that keep no state between calls.
