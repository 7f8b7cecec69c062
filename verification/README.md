# Messenger back end: a verified model

The messenger back end is a set of Go services. A data tier, *dbman*, owns the
per-tenant Postgres pools. A chat service owns rooms, messages and WebSocket
connections. An organisation service owns users and aliases. A session service
pushes notifications to connected clients. This project models the protocols
inside those services that are hard to get right, and proves what they keep over
every input, every run or every interleaving.

| file | what it models |
|---|---|
| `FailoverClient.dfy` | the dbman client: round robin, failure counters, timed cooldowns; one call against a simple specification |
| `BreakerRuns.dfy` | the circuit breaker over interleaved calls, and the traffic a dead endpoint still gets |
| `TenantRouter.dfy` | the tenant database router: metadata cache (`TenantMeta`) and lazily opened pools |
| `RouterRuns.dfy` | the router under configuration changes, one call at a time (`RouterCoherence`) and interleaved at lock granularity (`RouterInterleaving`) |
| `Publisher.dfy` | dedicated message-queue publishers with staged set-up and rollback |
| `Ledger.dfy` | accounting for numbered resources, shared by the router, the publisher and the room service |
| `Realtime.dfy` | WebSocket rooms and their consumers (`RoomService`); the SETNX / create / DEL protocol (`Idempotency`) |
| `ReadState.dfy` | messages, read marks and the unread queries |
| `Pagination.dfy`, `ListService.dfy` | keyset pagination through two tiers, and the list endpoints as a client drives them |
| `Cursor.dfy` | decimal, base64url and the pagination cursors (`Decimal`, `Base64Url`, `Cursor`) |
| `AliasAudit.dfy` | user aliases, their audit log and its listing |
| `Hub.dfy` | the session hub and its fan-out through Redis |
| `Logger.dfy` | the rotating log file |
| `Keys.dfy` | composite keys joined with an unescaped colon, and exactly when they are unambiguous |
| `GoStrings.dfy`, `Sets.dfy` | Go string functions on bytes; finite sets of integers |

How the model is laid out. Objects whose methods update fields are classes, and
each method is proved against a function on the abstract state (`View()`). Runs
and interleavings are sequences of operations applied to that same abstract
state, so that a theorem about every run is a theorem about every sequence.
Clocks, network answers, file-system faults and SQL failures are parameters.
Strings are sequences of bytes; times are integers in nanoseconds.

Where the code falls short of what one would expect, the model keeps the code and
the theorem gives the exact condition:

* A list request with a limit of 200 sees at most fifty rows and no further page,
  because dbman turns the service's 201 back into 50 (`Pagination.ListIsExactIff`,
  and `ListService.LiveMessageListing` for tables that change between pages).
* Routing follows the current tenant row exactly for ids without surrounding
  white space; invalidation trims the id while the cache does not
  (`RouterCoherence.CoherentIffTrimmed`).
* A handler that takes 24 hours or longer between SETNX and its end breaks the
  at-most-once promise (`Idempotency.AtMostOnceIff`).
* The local notification path writes a repeated recipient twice, the published
  one once (`Hub.PublishIsLocalIff`); key-prefix broadcast is exact
  exactly for tenant ids that are not colon-extensions of each other
  (`Hub.BroadcastIsExactIff`).
* Unregistering a connection leaves all others on file exactly when nobody else is on
  file under its user key and session id (`Hub.UnregisterKeepsOthersIff`); a late
  unregister removes its successor.
* Room messages go exactly once to the connections of their own room, for a set of
  tenants and all trimmed, non-empty room ids, exactly when no tenant id is another
  one followed by a colon and a text that begins without white space
  (`RoomService.DeliveryIsExactIff`). Rooms can collide in their keys
  (`RoomService.SharedKeyMixesRooms`) and, separately, in their channels
  (`RoomService.SharedChannelMixesRooms`). This is about HandleWS taken alone: the
  route in front of it (server/chat/api/handler.go:63-77) admits only rooms listed in
  room_members, and rooms that CreateRoom makes have UUIDs for ids, without a colon.
* Among trimmed, non-empty client ids, a message is turned away as a duplicate only on
  account of itself exactly when the senders' joined ids (tenant, room, user) are
  different and neither continues the other in the same way
  (`Idempotency.OnlyRepeatsRefusedIff`, `Idempotency.CrossRefusalExample`).
* A rotation that fails once the file has been closed silences the log file for
  good (`Logger.HandleDiesIff`, `Logger.DeadHandleStaysDead`).
* A cooldown setting above 9223372036854 ms wraps around in int64
  (`FailoverClient.DurationExactIff`).

## Model

| member | source | states |
|---|---|---|
| `FailoverClient.NormalizedSpec` | server/common/infra/dbman/client.go:119-134 | the normalized endpoint list is free of duplicates and blanks, holds exactly the trimmed non-empty inputs, and keeps first-occurrence order |
| `FailoverClient.NormalizeEndpoints` | server/common/infra/dbman/client.go:119-134 | the loop with its `seen` set computes that list |
| `FailoverClient.TrimRightSlashSpec` | server/common/infra/dbman/client.go:123-123 | exactly the slashes at the end of an endpoint are cut off |
| `FailoverClient.IntFromEnv` | server/common/infra/dbman/client.go:168-178 | whatever the variable holds, the threshold is at least 1 |
| `FailoverClient.IntFromEnvSpec` | server/common/infra/dbman/client.go:168-178 | a positive int64 is taken as printed; blank, unreadable and other settings give the default |
| `FailoverClient.DurationExactIff` | server/common/infra/dbman/client.go:180-190 | the configured duration is exact if and only if it is at most 9223372036854 ms; the next value is already negative |
| `FailoverClient.DurationDefault` | server/common/infra/dbman/client.go:180-190 | a non-positive or unreadable setting gives the default duration |
| `FailoverClient.ConfiguredIsValid` | server/common/infra/dbman/client.go:42-55 | the settings read from the environment give a threshold and a cooldown of at least one, up to the wrap |
| `FailoverClient.Client.constructor` | server/common/infra/dbman/client.go:42-55 | a new client has distinct endpoints and a closed breaker |
| `FailoverClient.Client.IsCoolingDown` | server/common/infra/dbman/client.go:136-148 | answers whether the endpoint cools at that instant and drops only an entry that has run out |
| `FailoverClient.Client.OnFailure` | server/common/infra/dbman/client.go:150-159 | counts, and at the threshold resets the counter and starts the cooldown |
| `FailoverClient.Client.OnSuccess` | server/common/infra/dbman/client.go:161-166 | clears counter and cooldown of that endpoint |
| `FailoverClient.Client.TryEndpoint` | server/common/infra/dbman/client.go:72-111 | one turn of the loop: whether the endpoint was tried, whether the call stops there, what it reports and the new breaker state |
| `FailoverClient.Client.Post` | server/common/infra/dbman/client.go:57-117 | the loop, with its four outcome classes, is the sweep over the endpoints in cyclic order; configuration and marshalling errors change nothing; the start index wraps at 2^32 |
| `FailoverClient.OutcomeClasses` | server/common/infra/dbman/client.go:72-116 | by status code, whatever follows: a cooling endpoint is passed over; no answer or 500 and more counts and the call goes on; 300 to 499 ends the call and counts nothing; below 300 an undecodable body counts and ends the call, a decoded one clears the endpoint and is the result |
| `FailoverClient.VisitsAreCyclic` | server/common/infra/dbman/client.go:69-75 | a call goes round in cyclic order from its start index and meets every endpoint exactly once |
| `FailoverClient.SweepResult` | server/common/infra/dbman/client.go:70-116 | over distinct endpoints the loop returns the first non-retriable outcome judged on the state before the call, else the last retriable error |
| `FailoverClient.SweepState` | server/common/infra/dbman/client.go:70-116 | endpoint by endpoint, the visits up to the stopping one have had their effect and nothing else has changed |
| `FailoverClient.VisitIsLocal` | server/common/infra/dbman/client.go:136-166 | a visit reads and writes only the entries of its own endpoint |
| `FailoverClient.PostMeetsSpec` | server/common/infra/dbman/client.go:57-117 | every call returns what the simple specification says, for every breaker state, start index and network behaviour |
| `FailoverClient.HealthyEndpointSuffices` | server/common/infra/dbman/client.go:57-117 | one healthy endpoint that is not cooling, wherever it stands, makes the call succeed if the others tried fail retriably |
| `BreakerRuns.BreakerExplained` | server/common/infra/dbman/client.go:136-166 | under every interleaving a counter is the failures since the last success modulo the threshold, hence below it, and a cooldown entry is the last trip plus the cooldown, present until seen over or cleared by a success |
| `BreakerRuns.AlwaysPaced` | server/common/infra/dbman/client.go:72-111 | along every run, requests to an always-failing endpoint wait out the cooldown after each trip |
| `BreakerRuns.RequestsAreSpaced` | server/common/infra/dbman/client.go:136-159 | requests a threshold apart are more than a cooldown apart |
| `BreakerRuns.WindowBound` | server/common/infra/dbman/client.go:136-159 | spacing bounds the requests in any window by threshold * (width / cooldown + 1) |
| `BreakerRuns.DeadEndpointTraffic` | server/common/infra/dbman/client.go:72-111 | that bound holds for an endpoint whose every attempt is a counted failure, from any breaker state |
| `BreakerRuns.SweepDrives` | server/common/infra/dbman/client.go:70-116 | a call changes the breaker as the visits it really makes do, one after the other |
| `BreakerRuns.RunDrives` | server/common/infra/dbman/client.go:57-117 | so does a run of calls from a fresh client, with the rotating start index |
| `BreakerRuns.FreshRun` | server/common/infra/dbman/client.go:42-117 | calls of Post one after the other on a fresh client leave the breaker, the index and the results that the run functions describe |
| `BreakerRuns.CallsRotate` | server/common/infra/dbman/client.go:69-69 | consecutive calls of a fresh client begin at cyclically consecutive endpoints, the first at the first |
| `BreakerRuns.EachBeginsOnce` | server/common/infra/dbman/client.go:69-69 | among any k calls in a row below the wrap of the index, each of k endpoints is the first of exactly one |
| `BreakerRuns.RotationAcrossWrapIff` | server/common/infra/dbman/client.go:69-69 | the rotation goes on across the uint32 wrap if and only if the number of endpoints divides 2^32 |
| `BreakerRuns.CallBeginsAt` | server/common/infra/dbman/client.go:69-72 | the n-th call asks endpoint n modulo their number first |
| `BreakerRuns.DeadEndpointTrafficInRun` | server/common/infra/dbman/client.go:57-159 | the traffic bound over every run of non-overlapping calls of a fresh client under a monotone clock |
| `TenantRouter.OpenKeepsOwned` | server/common/infra/db/tenant_db_router.go:98-116 | opening under the second look never duplicates or leaks a pool |
| `TenantRouter.InvalidateKeepsOwned` | server/common/infra/db/tenant_db_router.go:128-141 | invalidation closes the tenant's pool exactly when it gives it up |
| `TenantRouter.CloseKeepsOwned` | server/common/infra/db/tenant_db_router.go:119-126 | shutdown closes every held pool once and no other |
| `TenantRouter.TenantDBRouter.constructor` | server/common/infra/db/tenant_db_router.go:69-80 | an empty router |
| `TenantRouter.TenantDBRouter.LoadTenantMeta` | server/common/infra/db/tenant_db_router.go:143-167 | a live cache entry is returned unchanged; otherwise the provider's answer is returned and stored with the time taken before the fetch; an error stores nothing |
| `TenantRouter.TenantDBRouter.DBForTenant` | server/common/infra/db/tenant_db_router.go:82-117 | blank, missing, inactive, shared, existing, opened and failed cases, with the whole new state, keeping the pool accounting |
| `TenantRouter.TenantDBRouter.InvalidateTenant` | server/common/infra/db/tenant_db_router.go:128-141 | both maps lose the trimmed id and its pool is closed |
| `TenantRouter.TenantDBRouter.Close` | server/common/infra/db/tenant_db_router.go:119-126 | the loop, in any order, closes exactly the held pools |
| `TenantRouter.RouteByMeta` | server/common/infra/db/tenant_db_router.go:91-116 | which metadata lead to refusal, the shared pool, the tenant's own pool and an open error, and what is opened with which DSN |
| `TenantRouter.AnswerIsCached` | server/common/infra/db/tenant_db_router.go:143-166 | an answer is used for 30 seconds without asking the provider, and not for longer |
| `TenantRouter.InvalidateIsLocal` | server/common/infra/db/tenant_db_router.go:128-141 | an invalidation forgets and closes exactly the trimmed tenant's entries; a blank id does nothing |
| `TenantRouter.CloseClosesAll` | server/common/infra/db/tenant_db_router.go:119-126 | after a shutdown every pool ever opened has been closed exactly once and the cache is untouched |
| `RouterCoherence.SaveKeepsCoherent` | server/dbman/service/tenant_service.go:39-89 | creating or updating a tenant, accepted or refused, leaves cache and pools in agreement with the rows |
| `RouterCoherence.SaveByFields` | server/dbman/service/tenant_service.go:39-89 | a tenant is stored, with its mode in lower case, if and only if each named field is acceptable and the statement succeeds; otherwise nothing changes |
| `RouterCoherence.RouteAgrees` | server/common/infra/db/tenant_db_router.go:82-117 | a route for a trimmed id gives the uncached decision and keeps the agreement |
| `RouterCoherence.UntrimmedRouteKeepsCoherent` | server/common/infra/db/tenant_db_router.go:82-117 | routing an untrimmed id cannot disturb the agreement for trimmed ones |
| `RouterCoherence.RunIsCoherent` | server/dbman/service/tenant_service.go:39-69 | agreement holds after every sequence of changes, routes and shutdowns |
| `RouterCoherence.TrimmedRoutesAgree` | server/common/infra/db/tenant_db_router.go:82-141 | after any such sequence the answer is the uncached decision on the current row, and a dedicated pool is open and was opened with the current DSN |
| `RouterCoherence.AnswerByRow` | server/common/infra/db/tenant_db_router.go:82-117 | after every run, for a trimmed id, read off the row's columns: its own pool with the row's DSN if and only if active, mode dedicated, DSN not blank and the pool exists or opens; the shared pool if and only if active and otherwise; an error if and only if inactive, without metadata, or the open fails |
| `RouterCoherence.UntrimmedRouteDisagrees` | server/common/infra/db/tenant_db_router.go:128-149 | for every other id a concrete run routes a tenant that has been deactivated |
| `RouterCoherence.CoherentIffTrimmed` | server/common/infra/db/tenant_db_router.go:82-149 | an id is routed coherently in all runs if and only if it carries no surrounding white space |
| `RouterInterleaving.DoKeepsCache` | server/common/infra/db/tenant_db_router.go:143-167 | a cache entry was the provider's true answer at or after its recorded time, even when a slow fetch overwrites a newer one |
| `RouterInterleaving.DoKeepsCaller` | server/common/infra/db/tenant_db_router.go:82-117 | every step of every caller keeps its metadata younger than its start minus the lifetime |
| `RouterInterleaving.AlwaysInv` | server/common/infra/db/tenant_db_router.go:82-167 | the invariant holds in every reachable state |
| `RouterInterleaving.BoundedStaleness` | server/common/infra/db/tenant_db_router.go:143-167 | under every interleaving, metadata acted upon was true at some instant later than the cache check minus 30 s |
| `RouterInterleaving.PoolsAreAccountedFor` | server/common/infra/db/tenant_db_router.go:98-141 | under every interleaving each pool ever opened is held by exactly one tenant or closed exactly once, never both |
| `RouterInterleaving.OtherSteps` | server/common/infra/db/tenant_db_router.go:119-141 | invalidation, shutdown and configuration changes between the steps of callers are the router's own and move no caller |
| `RouterInterleaving.AloneIsRoute` | server/common/infra/db/tenant_db_router.go:82-117 | the lock-protected steps of a caller that nobody interrupts are the routing call |
| `Ledger.ShutAllStep` | server/common/infra/db/tenant_db_router.go:119-126 | shutting one held resource first does not change where shutting all ends, so the order of the map iteration is irrelevant |
| `Publisher.OpenKeepsOwned` | server/chat/service/publisher.go:140-164 | dial, channel and declare, failing at any stage, roll back what they opened |
| `Publisher.ShutKeepsOwned` | server/chat/service/publisher.go:86-118 | giving up one tenant closes its channel and its connection once each |
| `Publisher.CloseKeepsOwned` | server/chat/service/publisher.go:86-98 | shutdown keeps the accounting |
| `Publisher.AMQPPublisher.constructor` | server/chat/service/publisher.go:49-64 | an empty publisher |
| `Publisher.AMQPPublisher.LoadMeta` | server/chat/service/publisher.go:167-198 | a live cache entry is returned unchanged; otherwise the normalized provider answer, or the shared default without a provider, is stored with the time taken before the fetch; an error stores nothing |
| `Publisher.AMQPPublisher.OpenDedicated` | server/chat/service/publisher.go:140-164 | the staged set-up, with close calls on the failing paths, equals the specification by outcome |
| `Publisher.AMQPPublisher.PublisherForTenant` | server/chat/service/publisher.go:120-165 | cache, provider, inactive, shared, existing, set-up and failing cases with the whole new state, keeping the accounting |
| `Publisher.AMQPPublisher.PublisherForMeta` | server/chat/service/publisher.go:128-165 | the decision on given metadata, keeping the accounting |
| `Publisher.AMQPPublisher.CloseTenant` | server/chat/service/publisher.go:109-117 | one tenant's channel and connection are closed and the pair is forgotten |
| `Publisher.AMQPPublisher.InvalidateTenant` | server/chat/service/publisher.go:100-118 | the trimmed tenant loses its cache entry, and its pair is closed and forgotten |
| `Publisher.AMQPPublisher.Close` | server/chat/service/publisher.go:86-98 | the loop, in any order, closes exactly the held pairs |
| `Publisher.RunIsOwned` | server/chat/service/publisher.go:86-165 | the accounting holds after every sequence of lock-protected sections |
| `Publisher.NothingLeaks` | server/chat/service/publisher.go:86-165 | whatever stages fail, each connection and channel is in use by one tenant or closed exactly once, and tenants share none |
| `Publisher.DedicatedIsOpen` | server/chat/service/publisher.go:120-165 | after any run a dedicated answer is an open channel on its own open connection, both the tenant's |
| `Publisher.RouteByMeta` | server/chat/service/publisher.go:120-165 | which metadata lead to which publisher, with which URL it is dialled, and what each failing stage leaves closed |
| `Publisher.AnswerIsCached` | server/chat/service/publisher.go:167-198 | the provider's answer, normalized, or the shared default is used for 30 seconds and not for longer |
| `Publisher.InvalidateIsLocal` | server/chat/service/publisher.go:100-118 | other tenants' entries are untouched, the trimmed tenant's are gone |
| `Publisher.InvalidateCloses` | server/chat/service/publisher.go:100-118 | exactly the tenant's connection and channel are closed |
| `Publisher.CloseClosesAll` | server/chat/service/publisher.go:86-98 | after a shutdown every connection and channel ever opened has been closed exactly once |
| `RoomService.RealtimeService.constructor` | server/chat/service/realtime_service.go:42-50 | no rooms, no consumers |
| `RoomService.RealtimeService.JoinRoom` | server/chat/service/realtime_service.go:214-225 | the first connection creates the room and starts its consumer; later ones only join |
| `RoomService.RealtimeService.LeaveRoom` | server/chat/service/realtime_service.go:227-238 | the last connection to leave cancels the consumer and removes the room |
| `RoomService.RealtimeService.Deliver` | server/chat/service/realtime_service.go:191-212 | one received message is written once to each connection of the room, to nobody when the room is gone |
| `RoomService.RunMatches` | server/chat/service/realtime_service.go:214-238 | over every run the map holds exactly the live connections and the consumers balance |
| `RoomService.RoomsFollowConnections` | server/chat/service/realtime_service.go:214-238 | a room is in the map if and only if some connection joined and has not left, with exactly those connections |
| `RoomService.OneConsumerPerLiveRoom` | server/chat/service/realtime_service.go:214-238 | a mapped room has an uncancelled consumer of its own; every other consumer was cancelled exactly once |
| `RoomService.RunningConsumer` | server/chat/service/realtime_service.go:214-238 | exactly one running consumer per mapped room, none for any other |
| `RoomService.ChannelInjective` | server/chat/service/realtime_service.go:78-78 | for discernible tenants, where neither id is the other followed by a colon and a text that begins without white space, a channel name determines tenant and room |
| `RoomService.NameExample` | server/chat/service/realtime_service.go:77-78 | the formats of room keys and channels |
| `RoomService.NamesDifferIff` | server/chat/service/realtime_service.go:68-78 | all rooms HandleWS accepts (trimmed, non-empty) of two tenants differ in key and in channel if and only if the tenants are discernible |
| `RoomService.DeliveryIsExact` | server/chat/service/realtime_service.go:68-86 | after every run of accepted handlers among pairwise discernible tenants, a message published for a room is written exactly once to each connection whose handler for that room has joined and not left, and to no other connection |
| `RoomService.DeliveryIsExactIff` | server/chat/service/realtime_service.go:68-86 | for every set of tenants: all messages of all runs of accepted handlers are delivered exactly if and only if no tenant id is another one followed by a colon and a text that begins without white space |
| `RoomService.SharedKeyMixesRooms` | server/chat/service/realtime_service.go:77-78 | two rooms with one key share the first one's consumer: the second room's connection gets the first room's messages, and its own only if the channels coincide too |
| `RoomService.SharedChannelMixesRooms` | server/chat/service/realtime_service.go:78-78 | a family of rooms with different keys and one channel, where a single connection gets the other room's messages |
| `RoomService.KeyCollisionExample` | server/chat/service/realtime_service.go:77-78 | two accepted rooms with one key and two channels |
| `RoomService.ChannelCollisionExample` | server/chat/service/realtime_service.go:77-78 | two accepted rooms with two keys and one channel |
| `RoomService.DiscernibleExamples` | server/chat/service/realtime_service.go:77-78 | tenant ids with colons that do not collide, one of them continuing the other after a colon and a space |
| `Idempotency.KeyInjective` | server/chat/service/realtime_service.go:163-183 | between separate scopes (tenant, room, user) and for trimmed client ids only the same message yields the same key |
| `Idempotency.OnlyRepeatsRefusedIff` | server/chat/service/realtime_service.go:116-128 | for every set of senders: in all runs with trimmed client ids, those without a client id setting no key, a refused message was refused for its own earlier attempt, if and only if the senders' scopes are pairwise separate |
| `Idempotency.CrossRefusal` | server/chat/service/realtime_service.go:116-128 | two different messages that carry client ids and share a key: after the first, the second is refused on account of a key that was not set for it |
| `Idempotency.CrossRefusalExample` | server/chat/service/realtime_service.go:116-128 | one such pair of accepted messages: users a:b and a of one room |
| `Idempotency.ColonFreeSeparate` | server/chat/service/realtime_service.go:181-183 | scopes of colon-free ids are always separate |
| `Idempotency.RunIsKeyed` | server/chat/service/realtime_service.go:116-143 | in every run, however long handlers take, each key belongs to an attempt with that key |
| `Idempotency.RunKeepsInv` | server/chat/service/realtime_service.go:116-143 | over every interleaving with handlers shorter than the key's life, a handler in flight and a recent success own their key |
| `Idempotency.AbsentMeansFree` | server/chat/service/realtime_service.go:116-143 | a key is absent only if no handler for it is in flight and no success of the last 24 hours used it |
| `Idempotency.RetryIsAdmitted` | server/chat/service/realtime_service.go:136-143 | after every run, a failed create whose DEL succeeds re-admits the client's retry at once |
| `Idempotency.FailedCreateReadmits` | server/chat/service/realtime_service.go:136-143 | after every run, a create that fails leads to its DEL; the DEL frees the key and the same id is admitted again |
| `Idempotency.FailedDelKeepsKey` | server/chat/service/realtime_service.go:136-143 | a DEL that fails, and a create that succeeds, leave the key |
| `Idempotency.AdmittedIff` | server/chat/service/realtime_service.go:116-128 | a message is admitted if and only if it has a client id and its key is absent or expired; a refused one changes nothing |
| `Idempotency.KeyLivesADay` | server/chat/service/realtime_service.go:179-179 | a key lives for 24 hours, to the nanosecond |
| `Idempotency.PhaseHistory` | server/chat/service/realtime_service.go:116-143 | in every run an attempt has failed only after its create failed and its DEL ran, or its SETNX reply was lost; it succeeded only by its create |
| `Idempotency.KeyExample` | server/chat/service/realtime_service.go:181-183 | the key's format |
| `Idempotency.OverrunBreaks` | server/chat/service/realtime_service.go:116-143 | a concrete interleaving with two successes when a handler outlives its key |
| `Idempotency.AtMostOnceIff` | server/chat/service/realtime_service.go:116-143 | at most one create per (tenant, room, user, client id) succeeds in the life of a key, for all interleavings, if and only if handlers, their DEL included, take less than 24 hours |
| `ReadState.ChatTables.constructor` | migrations/001_init.sql:41-48 | empty tables |
| `ReadState.ChatTables.CreateMessage` | server/dbman/repository/chat_repository.go:80-91 | the insert, and its failure on a repeated id |
| `ReadState.CreateEffect` | server/dbman/repository/chat_repository.go:80-91 | a repeated id is refused and changes nothing; a new one adds just its message |
| `ReadState.ChatTables.MarkReadUpTo` | server/dbman/repository/chat_repository.go:176-201 | all messages up to the named one get the current read time; it fails exactly when the message is not in that room |
| `ReadState.MessagesArePosted` | server/dbman/repository/chat_repository.go:80-91 | the message table is exactly what was posted |
| `ReadState.CanMarkIffPosted` | server/dbman/repository/chat_repository.go:186-199 | a mark succeeds if and only if its message was posted in the room |
| `ReadState.ReadAfterCreated` | server/dbman/repository/chat_repository.go:176-201 | under a monotone clock every read row is at least as late as its message and names its message's room |
| `ReadState.NewestReadIsLastMark` | server/dbman/repository/chat_repository.go:176-201 | the user's newest read time in a room is the time of the last successful mark there |
| `ReadState.UnreadIsSinceLastMark` | server/dbman/repository/chat_repository.go:251-269 | unread messages are exactly those others posted strictly after that mark, whichever message it named |
| `ReadState.MarkClearsUnread` | server/chat/service/chat_service.go:64-64 | a successful mark, such as the one that follows every post, leaves nothing unread even when it names an old message |
| `ReadState.MarkKeepsPrefix` | server/dbman/repository/chat_repository.go:176-201 | marking keeps the read set a prefix in (created_at, message_id) order |
| `ReadState.CreateKeepsPrefixIff` | server/dbman/repository/chat_repository.go:80-91 | posting keeps the prefix if and only if no message the user has read sorts after the new one |
| `ReadState.ReadSetIsPrefix` | server/dbman/repository/chat_repository.go:176-201 | with strictly increasing timestamps the read set is a prefix of the room's history after every run |
| `ReadState.ReadIsLastCover` | server/dbman/repository/chat_repository.go:176-201 | after every run a user has read exactly the messages some mark of the user covers, in order of time then id, at the time of the last such mark |
| `ReadState.SubQueriesAgree` | server/dbman/repository/chat_repository.go:251-374 | on one room the three sub-queries count the same messages |
| `ReadState.UnreadQueriesAgree` | server/dbman/repository/chat_repository.go:251-374 | the three queries, each written out from its own joins and sub-queries, report the same number for a room, the messages others posted since the last mark; the two lists report the same rooms if and only if every membership has its room and its user |
| `Pagination.OrderedIsEnumeration` | server/dbman/repository/chat_repository.go:93-129 | ORDER BY key DESC is a descending enumeration of exactly the rows |
| `Pagination.DescendingUnique` | server/dbman/repository/chat_repository.go:93-129 | there is only one such enumeration |
| `Pagination.EligibleAfter` | server/dbman/repository/chat_repository.go:93-129 | a row used as cursor leaves exactly the rows that follow it |
| `Pagination.FollowIsCut` | server/chat/service/chat_service.go:83-93 | following the cursor with one extra row fetched cuts the ordered table into consecutive pages |
| `Pagination.FollowIsExact` | server/chat/service/chat_service.go:69-94 | max(1, ceil(N/L)) pages, all but the last full, concatenating to all rows in order |
| `Pagination.FollowStopsEarly` | server/dbman/api/handler.go:619-621 | without the extra row the first page is the last |
| `Pagination.PageSizes` | server/dbman/api/handler.go:619-621 | the page size for every limit: the limit itself in 1..200 and 50 otherwise, for search in 1..100 and 30 otherwise; one row more is fetched, except 50 at limit 200 |
| `Pagination.ListIsExactIff` | server/dbman/api/handler.go:619-621 | a listing is complete if and only if the limit is not 200 or at most fifty rows exist |
| `Pagination.LimitTwoHundredLosesRows` | server/dbman/api/handler.go:619-621 | fifty-one rows at limit 200: the fifty-first is never shown |
| `Pagination.LiveNoRepeatNoMiss` | server/chat/service/chat_service.go:69-94 | with rows inserted between pages nothing repeats, order is kept and, once the last page is reached, no row present at the start is missed |
| `Pagination.SnapshotPages` | server/dbman/repository/user_repository.go:218-231 | if only newer rows arrive, the pages are those of the first request's data |
| `Pagination.LiveListing` | server/chat/service/chat_service.go:69-94 | for every limit, with rows inserted between pages: nothing repeats; a finished walk has shown all rows of the first moment if and only if the limit is not 200 or at most fifty were there |
| `Pagination.SnapshotListing` | server/dbman/repository/user_repository.go:218-231 | for every limit, if only newer rows arrive: the walk yields the first request's rows in order if and only if the limit is not 200 or at most fifty were there |
| `Pagination.RankOf` | server/chat/service/chat_service.go:131-134 | the preference map has exactly the semantic hits as keys |
| `Pagination.Rerank` | server/chat/service/chat_service.go:126-151 | hits move to the front and both groups keep their order, on every early return as well |
| `Pagination.SelectLaws` | server/chat/service/chat_service.go:136-151 | selection goes row by row and keeps the order |
| `Pagination.HitsComeFirst` | server/chat/service/chat_service.go:136-151 | all hits come first, all other rows after them |
| `Pagination.SelectSplits` | server/chat/service/chat_service.go:136-151 | the two groups together are the page, as multisets |
| `Pagination.RerankedFirstPage` | server/chat/service/chat_service.go:114-151 | re-ranking the first page permutes what the client collects |
| `Pagination.SearchIsExact` | server/chat/service/chat_service.go:96-152 | search pages hold every match exactly once, whatever the vector service answers and for every limit |
| `ListService.ClientSeesUnique` | server/chat/service/chat_service.go:69-94 | what a client collects is determined by its first cursor |
| `ListService.ClientSeesFollow` | server/chat/service/chat_service.go:69-94 | sending cursors through the codec shows the client the pages obtained by following keys |
| `ListService.PageBelow` | server/chat/service/chat_service.go:69-94 | one request with any cursor and limit 1..199: the largest keys below the cursor, as many as asked for, and a next cursor if and only if there are more |
| `ListService.BadCursorIsRejected` | server/chat/service/chat_service.go:74-81 | a cursor is rejected if and only if it is not blank and cannot be decoded |
| `ListService.MessageListing` | server/chat/service/chat_service.go:69-94 | a client that follows string cursors collects one definite sequence of pages: all messages in descending id order if and only if the limit is not 200 or at most fifty exist; for a limit in 1..199 every page but the last has exactly that many, for a limit below 1 or above 200 fifty |
| `ListService.WalkFollows` | server/chat/service/chat_service.go:69-94 | string cursors may go through the codec unnoticed on tables that change between requests, too |
| `ListService.LiveMessageListing` | server/chat/service/chat_service.go:69-94 | a client that follows string cursors while messages are posted sees none twice, in order, and at the end all of the first moment if and only if the limit is not 200 or at most fifty were there |
| `ListService.SearchListing` | server/chat/service/chat_service.go:96-152 | search end to end: one definite sequence of pages of the limit asked for in 1..100 and of 30 otherwise; with the first page re-ranked by any hits a client has every match exactly once |
| `ListService.TimedListing` | server/orgHub/service/user_service.go:75-110 | the same for (time, id) keys, as used by the alias audit list |
| `ListService.RoomListing` | server/chat/service/chat_service.go:206-233 | a user's room list is in order of recent activity without repetition for every limit, and shows every room if and only if the limit is not 200 or there are at most fifty rooms |
| `Decimal.ParsePrintInt` | server/chat/service/chat_service.go:258-276 | parsing undoes printing on exactly the int64 range, the minimum included |
| `Decimal.ParsesNumerals` | server/chat/service/chat_service.go:272-275 | exactly the numerals, with an optional sign, within int64 are read |
| `Decimal.PrintIntInjective` | server/chat/service/chat_service.go:258-261 | distinct integers print differently |
| `Base64Url.SextetsRoundTrip` | server/chat/service/chat_service.go:235-243 | regrouping bytes into unpadded six-bit values and back is the identity |
| `Base64Url.RoundTrip` | server/chat/service/chat_service.go:235-243 | decoding undoes encoding on every byte string |
| `Base64Url.Alphabet` | server/chat/service/chat_service.go:235-243 | the 64 characters of the URL-safe alphabet in order |
| `Base64Url.QuantumValue` | server/chat/service/chat_service.go:235-243 | a quantum is the same 24-bit number before and after, most significant part first |
| `Base64Url.DecodesIff` | server/chat/service/chat_service.go:239-243 | exactly the texts over the alphabet, line breaks aside, whose length is not one more than a multiple of four decode |
| `Base64Url.EncodedIsNotBlank` | server/chat/service/chat_service.go:75-75 | the cursor of a non-empty key is never mistaken for an absent one |
| `Cursor.SplitAtFirstColon` | server/chat/service/chat_service.go:268-268 | the first colon of a printed pair is the separator, whatever the id holds |
| `Cursor.UnpairSpec` | server/chat/service/chat_service.go:268-279 | left of the first colon is the time, right of it the trimmed id; without a colon, a readable time or an id nothing is decoded |
| `Cursor.MessageCursorRoundTrip` | server/chat/service/chat_service.go:235-249 | a message cursor decodes to its id if and only if the id is non-empty and trimmed |
| `Cursor.TimedCursorRoundTrip` | server/chat/service/chat_service.go:258-281 | a (time, id) cursor decodes to its pair if and only if the time is an int64 and the id non-empty and trimmed; colons are allowed |
| `Cursor.TimedCursorInjective` | server/orgHub/service/user_service.go:112-135 | distinct pairs have distinct cursors |
| `AliasAudit.AliasRepository.constructor` | migrations/004_user_aliases.sql:1-6 | empty tables |
| `AliasAudit.AliasRepository.Add` | server/dbman/repository/user_repository.go:162-178 | an insert and its audit row together, or neither when either unique index is hit |
| `AliasAudit.AliasRepository.Remove` | server/dbman/repository/user_repository.go:180-195 | a deletion and its audit row together, or neither when nothing matched |
| `AliasAudit.AddTakesEffectIff` | server/dbman/repository/user_repository.go:162-178 | an addition takes effect if and only if no alias of the user equals it ignoring case, and records id, address, agent and time |
| `AliasAudit.DeleteTakesEffectIff` | server/dbman/repository/user_repository.go:180-195 | a deletion takes effect if and only if this tenant's user holds the alias as written, and touches no other |
| `AliasAudit.LogRecordsOps` | server/dbman/repository/user_repository.go:162-195 | after every run the log consists of entries for some of the operations, with their details, in their order |
| `AliasAudit.AuditReplaysToTable` | server/dbman/repository/user_repository.go:162-195 | after every run, replaying the log alone gives the alias table |
| `AliasAudit.AliasesDifferBeyondCase` | migrations/005_alias_case_normalization.sql:20-21 | after every run no user holds two aliases that differ in case only |
| `AliasAudit.StepAgrees` | server/dbman/repository/user_repository.go:162-195 | every operation on any alias keeps the log of each alias alternating and in step with the table |
| `AliasAudit.AuditAlternates` | server/dbman/repository/user_repository.go:162-195 | per alias the log reads add, delete, add, ... and the alias is held if and only if the last entry is an add |
| `AliasAudit.MatchesIff` | server/dbman/repository/user_repository.go:204-217 | what a filter selects, both ends of the period included, the action ignoring case |
| `AliasAudit.PeriodsSplit` | server/dbman/repository/user_repository.go:204-217 | two adjoining periods split a period without overlap |
| `AliasAudit.ActionsSplit` | server/dbman/repository/user_repository.go:212-215 | the two actions split a listing without overlap |
| `AliasAudit.AuditListing` | server/orgHub/service/user_service.go:75-110 | exactly the requests with a valid filter and cursor are served; a client collects every matching entry once, newest first, if and only if the limit is not 200 or at most fifty match |
| `AliasAudit.AppendedRowsAreNewer` | server/dbman/repository/user_repository.go:197-231 | under any filter, rows appended later sort above the first page's snapshot |
| `AliasAudit.AuditPagesAreSnapshot` | server/orgHub/service/user_service.go:75-110 | while entries are being written, a client that follows the string cursors still collects exactly the matching entries of its first request, newest first, if and only if the limit is not 200 or at most fifty matched |
| `Hub.Node.constructor` | server/session/service/hub.go:43-51 | no clients |
| `Hub.Node.Register` | server/session/service/hub.go:90-98 | the client is filed under its user key and session id |
| `Hub.Node.Unregister` | server/session/service/hub.go:100-111 | the entry for that pair goes, and an empty inner map with it |
| `Hub.WriteAll` | server/session/service/hub.go:127-133 | one write per session in any order, and the count is the number of writes |
| `Hub.Node.NotifyUserLocal` | server/session/service/hub.go:121-133 | exactly the sessions filed under the user key |
| `Hub.Node.NotifyUsersLocal` | server/session/service/hub.go:135-144 | the fallback loop writes recipient by recipient, each with its own payload |
| `Hub.Node.BroadcastTenantLocal` | server/session/service/hub.go:154-169 | every session under a key with the tenant's prefix once |
| `Hub.Node.TenantSessionCount` | server/session/service/hub.go:257-269 | equals the number of writes a local broadcast would make |
| `Hub.Node.NotifyUsersEvent` | server/session/service/hub.go:196-217 | the published event lists first occurrences and carries each recipient's payload |
| `Hub.Node.Consume` | server/session/service/hub.go:271-318 | a received event makes exactly its specified writes |
| `Hub.RegistryHistory` | server/session/service/hub.go:90-111 | after every run the client on file is the last one registered under the pair since its last unregistration, and no inner map is empty |
| `Hub.LateUnregisterDropsSuccessor` | server/session/service/hub.go:100-111 | an old connection's unregister removes the newer one |
| `Hub.UnregisterKeepsOthersIff` | server/session/service/hub.go:100-111 | after every run, unregistering a client leaves every other client on file if and only if the client on file under its pair is itself or nobody |
| `Hub.ConsumeIsLocal` | server/session/service/hub.go:196-306 | publish-then-consume writes what the local path writes for the distinct recipients |
| `Hub.PublishIsLocalIff` | server/session/service/hub.go:135-306 | it equals the local path on every registry if and only if no recipient is listed twice |
| `Hub.FanOutIsLocalEverywhere` | server/session/service/hub.go:196-318 | over any number of nodes, the writes are those of the local path run on each node |
| `Keys.KeyedInjective` | server/session/service/hub.go:86-88 | for owners that are apart a key names one owner and one id |
| `Keys.UnambiguousIff` | server/session/service/hub.go:86-88 | keys of two owners are unambiguous for all ids if and only if neither owner is the other followed by a colon and more |
| `Keys.ColonFreeApart` | server/session/service/hub.go:86-88 | owners without a colon are always apart |
| `Keys.UnambiguousTrimmedIff` | server/chat/service/realtime_service.go:68-78 | keys of two owners are unambiguous for all trimmed, non-empty ids if and only if neither owner is the other followed by a colon and a text that begins without white space |
| `Hub.BroadcastReachesTenantIff` | server/session/service/hub.go:154-169 | a broadcast separates two tenants for all users if and only if neither id is a colon-extension of the other |
| `Hub.BroadcastIsExact` | server/session/service/hub.go:154-169 | for tenants that are apart a broadcast writes once to each session of its tenant and nothing to the other's |
| `Hub.BroadcastIsExactIff` | server/session/service/hub.go:154-169 | broadcasts to one tenant treat another's sessions as they should, on every hub and for every user id the hub takes, if and only if the tenants are apart; the route in front (server/session/api/handler.go:53) trims user ids, which spares tenants that differ by a colon and white space |
| `Hub.EachSessionOnce` | server/session/service/hub.go:121-144 | every session of a listed user gets that user's own payload exactly once, nobody else anything |
| `Hub.FanOutReachesSessions` | server/session/service/hub.go:196-306 | a published notification reaches every session of a listed user on whichever nodes it is held, once and with its own payload |
| `Hub.BroadcastReachesSessions` | server/session/service/hub.go:232-317 | a published broadcast reaches exactly the tenant's sessions on all nodes |
| `Hub.NotifyReachesUser` | server/session/service/hub.go:171-290 | a published notification for one user reaches that user's sessions on all nodes, once each, and no other |
| `Hub.EmptyPayloadWritesNothing` | server/session/service/hub.go:281-308 | an event without a payload writes nothing |
| `Logger.CandidatesDiffer` | server/common/log/logger.go:203-217 | different indices give different names |
| `Logger.TakenBound` | server/common/log/logger.go:209-216 | no more candidates can be taken than there are files |
| `Logger.FirstFree` | server/common/log/logger.go:209-216 | the search ends at the least free index |
| `Logger.NextRotatedPath` | server/common/log/logger.go:203-217 | the loop terminates with that name, which no file has |
| `Logger.RotatingLogger.constructor` | server/common/log/logger.go:51-70 | no file open yet |
| `Logger.RotatingLogger.RotateIfNeeded` | server/common/log/logger.go:168-201 | stat, sync, close, name, rename and reopen, with the state each failing step leaves |
| `Logger.RotatingLogger.WriteToFile` | server/common/log/logger.go:132-166 | open, rotate, append, including partial writes |
| `Logger.MoveConserves` | server/common/log/logger.go:189-200 | rename and truncate lose nothing |
| `Logger.WriteConserves` | server/common/log/logger.go:132-201 | whatever fails, rotated files then current file keep all they held in order and grow by what was written |
| `Logger.RotationKeepsOtherFiles` | server/common/log/logger.go:189-200 | no write overwrites or changes any other file |
| `Logger.CurrentFitsOrIsOneLine` | server/common/log/logger.go:168-201 | after an undisturbed write the current file fits the limit or holds exactly that line |
| `Logger.FittingLineIsAppended` | server/common/log/logger.go:168-178 | a line that fits the limit is appended, nothing is rotated and no other file changes |
| `Logger.LongLineRotates` | server/common/log/logger.go:176-201 | a line that does not fit starts a new file, and the old content moves to exactly one new name that was free |
| `Logger.FaultOutcome` | server/common/log/logger.go:132-201 | what each failing system call leaves of files, rotated files and handle |
| `Logger.OpenFaultIsRetried` | server/common/log/logger.go:153-166 | a log that could not be opened is opened at the next line |
| `Logger.NameExample` | server/common/log/logger.go:204-211 | the format of rotated names |
| `Logger.LogIsConserved` | server/common/log/logger.go:132-217 | over every run without file errors, rotated files in order then the current file are the initial content plus all lines in order |
| `Logger.DeadHandleStaysDead` | server/common/log/logger.go:153-177 | once the handle is a closed file no later call changes anything |
| `Logger.HandleDiesIff` | server/common/log/logger.go:176-199 | the handle dies if and only if the line does not fit and the rotation fails from the close on |

## Left out

- HTTP routing, JWT, middleware, gin wiring, `cmd/*`, deployment files and load tests: plumbing without a hard property.
- The Redis and MinIO tenant routers: the same protocol as the database router; their proofs would repeat it.
- Staleness of the publisher's metadata under interleaving: its cache is modelled, but the theorem would repeat the database router's.
- Vector search and embeddings: the semantic hits are an arbitrary list.
- JSON, WebSocket, AMQP, Redis and Postgres internals: serialization is the identity, a publish reaches each subscriber exactly once or fails as a whole, and each SQL statement is atomic.
- Full-text matching, mention tokens, summaries and the other display columns of the room list.
- "Latest message" and "last read message" as newest in time: both queries order by message_id, a random UUID (migrations/001_init.sql:42), so nothing about time is claimed for them.
- Dedicated pools under an invalidation that races with an open call, and several dbman instances: an in-flight caller can store a pool for an old DSN, so pool coherence is stated for calls that do not straddle a configuration change; staleness of metadata and pool accounting are stated for every interleaving.
- Go memory-model races, such as walking a session map after releasing the lock (server/session/service/hub.go:123-131): each operation is atomic.
- The choice between publishing and the local fallback when Redis fails: each path is modelled, the switch between them is not.
- Tenants with a Redis of their own: room delivery and message ids are stated for tenants that share one Redis.
- A consumer that has been cancelled but is still delivering a message it had already received: cancellation takes effect at once.
- Case folding beyond ASCII letters in tenant modes, audit actions and aliases.
- The alias pattern and length checks in server/dbman/service/user_service.go:79-104: the tables are proved for every alias that reaches them.
- Path cleaning by filepath.Join and the clock behind the time stamp of rotated names: the stamp is a parameter.
- Base64 decoding errors are not told apart, nor are decimal syntax and range errors: the services treat both as an invalid cursor.
