# Verification of the gateway's authorization kernel

This project models the part of the Conduit gateway that decides who may do what, and proves what its
comments promise over whole runs: identities that live and are revoked, tokens that are used once, grants that
end with their task, constraints that only narrow, limits that hold in every window, pages that lose nothing,
and caches that never show. Each `.dfy` file holds one module.

| file | what it models |
|---|---|
| `Lifecycle.dfy` | hosts, agents, the two transition tables, the state check on the three lifetime clocks |
| `Identity.dfy` | the identity service with atomic operations, runs of them, introspection (RFC 7662, section 2.2) |
| `Interleaving.dfy` | the same operations as single storage calls, interleaved by an arbitrary schedule with logins in flight |
| `ReplayCache.dfy` | the `jti` cache and the claim stage (RFC 7519, sections 4.1.4 and 4.1.7) |
| `Pipeline.dfy` | the staged token pipeline for hosts and agents, and runs of it |
| `Grants.dfy` | capability grants, self-service requests, tasks |
| `Constraints.dfy` | the constraint language, its test and its `intersect` |
| `RateLimiter.dfy` | the fixed-window limiter with lazy sweeping |
| `ExecuteGates.dfy` | the gates in front of a connector, the per-(agent, connection) budget, the admin `blocked` flag |
| `Paging.dfy` | keyset pagination over (created_at, id) and its cursors |
| `SchemaRouter.dfy` | the tool-schema router with its TTL cache and registry |
| `SchemaInterleaving.dfy` | the same step by step, with registrations during a fetch |
| `Cidr.dfy` | both IPv4 parsers, bit masks, blocked ranges (RFC 4632, section 3.1) |
| `Templates.dfy` | manifest placeholders, credential fields, argument routing |
| `Arithmetic.dfy`, `Text.dfy`, `Common.dfy` | shared facts and datatypes |

Objects whose methods update fields are classes here; each method is proved against a specification function on
values, and the results about runs are lemmas about those functions. What an operation decides is also stated without
them, on the rows and the events alone (`HostAcceptedExactlyWhen`, `AuthorityTellsHistory`, `RegistryTellsHistory`,
`AllowedExactlyWhen`, `ExecutesExactlyWhen`, `PageExactly` and the like). Clocks, signatures, encodings, fetches
and policy verdicts are parameters.

## What does not hold as promised

Where the code falls short of a promise, the exact condition is proved.

* A replayed token is caught up to the end of its window, but the stage floors its clock to seconds and the store
  does not: in the last second the token passes once more (`ReplayPassesExactlyInTheGap`,
  `AcceptedTwiceInTheFinalSecond`). With time in whole seconds "at most once" holds (`AtMostOnce`).
* `M * (floor(D / W) + 1)` hits per span of `D` is the right bound iff `W` divides `D` or `M <= 1`
  (`PerStartedWindowExactlyWhen`); the bound that always holds, `Worst`, is reached (`WorstIsReached`).
* A cursor carries milliseconds while rows carry microseconds: the pages reproduce the list iff every page boundary
  is safe for the truncated cursor (`WalkReproducesListingExactlyWhen`); otherwise rows are skipped.
* Introspection is right about the state check within the absolute lifetime iff the maximum lifetime covers the
  session or the absolute lifetime (`HonestExactlyWhen`).
* At the granularity of storage calls the host invariant survives a completed cascade iff nothing of the host was
  pending or past its host check when the list was taken (`HostInvariantSurvivesExactlyWhen`); a cascade fails iff an
  agent on its list was lost before its turn (`CascadeFailsExactlyWhen`), and is safe from failing only if it has nobody
  to revoke (`CascadeCannotFailExactlyWhen`); an absolute clock is kept iff no
  reactivation that read the row unstamped is still under way (`ClockIsKeptExactlyWhen`), and a missing one stays away
  iff nobody is on the way to stamping it (`ClockStaysAwayExactlyWhen`). Each has an instance that goes wrong.
  Revocation is safe all the same (`HostRevocationIsSafe`).
* The cached router equals the uncached one iff origins are steady for one time-to-live
  (`InvisibleExactlyWhenSteady`); step by step, a registration during a fetch is overwritten by the old answer
  exactly as `ServedIsCurrentExactlyWhen` and `KeptIsCurrentExactlyWhen` say.
* A conflict is detected only on exact values: records that intersect can be satisfied together iff every field of
  the result leaves room (`IntersectLeavesRoomExactlyWhen`, `FoldAdmitsExactlyWhen`).
* Each path placeholder receives its own argument iff no placeholder is repeated (`AllSlotsFilledIffDistinct`).
* On GET and HEAD an argument overwrites a query parameter of the manifest that has its name
  (`ManifestKeptExactlyWhen`). A path's own query parameters, with the placeholders in them, arrive iff none has the
  name of a manifest parameter or of such an argument (`OwnQueryKeptExactlyWhen`, `OwnNamesKeptExactlyWhen`).
* Validation does not look at a base URL that the secret brings: an accepted secret fills the base URL in use iff that
  is not empty and, where it is the secret's own, each of its placeholders has a value (`BaseFillsExactlyWhen`).
* Introspection lists a capability the lookup no longer grants exactly when its task has expired
  (`IntrospectedExactly`).

## Model

| member | source | states |
|---|---|---|
| Identity.IdentityService.MoveAgent | apps/server/src/identity/stateMachine.ts:24-44 | a status changes only along the agent table; an unknown id or an illegal move changes nothing and says which |
| Identity.IdentityService.MoveHost | apps/server/src/identity/stateMachine.ts:46-66 | the same for hosts |
| Identity.IdentityService.RegisterAgent | apps/server/src/identity/identityService.ts:157-193 | under an active host the create, activate and stamp calls add up to one new active agent with all clocks set; otherwise the error, and nothing changes |
| Identity.IdentityService.RevokeAgent | apps/server/src/identity/identityService.ts:203-215 | only the owning host revokes; repeating it is harmless |
| Identity.IdentityService.ReactivateAgent | apps/server/src/identity/identityService.ts:294-322 | refused once the absolute clock has come; otherwise session and maximum clocks restart and the absolute clock stays |
| Identity.IdentityService.ListByHost | packages/storage/src/drivers/postgres/agentRepository.ts:48-54 | exactly the host's agents, each once, oldest first |
| Identity.IdentityService.RevokeHostAndAgents | apps/server/src/identity/identityService.ts:340-356 | the cascade loop revokes exactly the host's active and expired agents, leaves all other rows alone, and never fails half-way |
| Identity.IdentityService.Introspect | apps/server/src/identity/identityService.ts:371-418 | the flag: active iff genuine, for this audience, unexpired, and the agent active in its session; host and other clocks are not consulted |
| Identity.RunIsSanctioned | apps/server/src/identity/stateMachine.ts:7-16 | over any stretch of any run rows stay, hosts of agents and absolute clocks never change, revoked and rejected hosts and revoked, rejected and claimed agents stay so |
| Identity.StepMovesAgent | apps/server/src/identity/agentStateMachine.ts:8-15 | every event, for every agent already there: which status it ends in, by owner, status, host and absolute clock; all other events leave it alone |
| Identity.StepMovesHost | apps/server/src/identity/stateMachine.ts:46-66 | the same for hosts |
| Identity.StepAddsAgent | apps/server/src/identity/identityService.ts:157-193 | an agent appears only by a registration under an active host: the host's, and active |
| Identity.HostInvariantAlong | apps/server/src/identity/identityService.ts:340-356 | in every reachable state every active or expired agent has an active host |
| Identity.ClocksTellHistory | apps/server/src/identity/identityService.ts:180-186 | an agent's clocks are at all times those of its registration (absolute) and of its last activation (session, maximum), however many reactivations there were |
| Identity.PassesExactlyWhileAlive | apps/server/src/auth/stages/stateCheckStage.ts:16-67 | in every reachable state the state check passes at an instant iff the agent is active and the instant is within registration + absolute, last activation + maximum, last activation + session |
| Identity.AbsoluteClockNeverMoves | apps/server/src/identity/identityService.ts:302-316 | the absolute clock stamped at registration is the one read at any later point of the run |
| Identity.RevokedIsForever | apps/server/src/identity/agentStateMachine.ts:11-15 | an agent once revoked is refused in every later state, as revoked or because its host is |
| Identity.RevokedExactlyWhen | apps/server/src/identity/identityService.ts:203-215 | an agent of any reachable state is revoked iff its owner once asked for its revocation, or for its host's, while it was active or expired |
| Identity.RevocationSticks | apps/server/src/identity/identityService.ts:203-215 | from the event on in which the owner asks for it, the agent is refused in every later state, at every instant |
| Identity.ReactivatedExactlyWhen | apps/server/src/identity/identityService.ts:294-322 | an agent turns active again exactly at its owner's reactivation, when expired and before registration + absolute lifetime |
| Identity.HostRevocationIsFinal | apps/server/src/identity/identityService.ts:348-355 | after a host's revocation every agent of it, whenever it appeared, is refused in every later state and is neither active nor expired |
| Identity.HostRevocationSticks | apps/server/src/identity/identityService.ts:340-356 | from the event on that revokes a host that is or was active, all its agents are refused because of it |
| Identity.IntrospectsExactlyWhen | apps/server/src/identity/identityService.ts:371-399 | in every reachable state the token is called active iff it is genuine, for this gateway, unexpired, and its agent active and within its session, counted from the last activation |
| Identity.IntrospectionAgrees | apps/server/src/identity/identityService.ts:391-399 | with session <= maximum, the state check passes iff the absolute clock has not passed and introspection says active or this is the session's last instant |
| Identity.HonestExactlyWhen | apps/server/src/identity/identityService.ts:391-399 | introspection is right about every agent of every run, within the absolute lifetime, iff session <= maximum or absolute <= maximum |
| Identity.DishonestRunGoesWrong | apps/server/src/identity/identityService.ts:391-399 | otherwise a freshly registered agent is called active when the state check refuses it |
| Interleaving.RegisterAlone | apps/server/src/identity/identityService.ts:157-193 | undisturbed, the four calls of a registration are the atomic operation |
| Interleaving.ReactivateAlone | apps/server/src/identity/identityService.ts:294-322 | undisturbed, the three calls of a reactivation are the atomic operation |
| Interleaving.RevokeAlone | apps/server/src/identity/identityService.ts:203-215 | undisturbed, the two calls of a revocation are the atomic operation |
| Interleaving.RevokeHostAlone | apps/server/src/identity/identityService.ts:340-356 | undisturbed, the calls of a host revocation, cascade included, are the atomic operation |
| Interleaving.LogInAlone | apps/server/src/auth/stages/signatureVerifyStage.ts:25-47 | undisturbed, the six calls of a login accept iff its own checks pass and the agent is active, within its clocks, under an active host |
| Interleaving.LogInIsThePipeline | apps/server/src/auth/stages/index.ts:25-36 | and that is the verdict of the agent pipeline on the same request |
| Interleaving.HostRevocationIsSafe | apps/server/src/auth/stages/signatureVerifyStage.ts:16-47 | for every schedule: once a host is revoked, no login whose host read comes later is ever accepted for an agent of that host |
| Interleaving.AgentRevocationIsSafe | apps/server/src/auth/stages/signatureVerifyStage.ts:28-39 | the same for one agent and the login's agent read |
| Interleaving.HostTokensEndWithHost | apps/server/src/auth/stages/stateCheckStage.ts:21-33 | for every schedule: in every state after a host's revocation the host's own token is refused, a good one because of it |
| Interleaving.AcceptedAfterRevocation | apps/server/src/auth/stages/signatureVerifyStage.ts:33-42 | the premise is needed: a login that read before is accepted after the whole cascade has ended |
| Interleaving.DecidedBySnapshots | apps/server/src/auth/stages/stateCheckStage.ts:16-67 | past its host read a login is decided by its snapshots and its own checks, whatever happens to the tables |
| Interleaving.CompletedCascadeRevokesListed | apps/server/src/identity/identityService.ts:350-355 | under every schedule a cascade that has ended well has revoked every agent that was usable when it was listed |
| Interleaving.CascadeFailsExactlyWhen | apps/server/src/identity/identityService.ts:350-355 | under every schedule a cascade fails iff some agent usable when listed stopped being so before its turn |
| Interleaving.CascadeCannotFailExactlyWhen | apps/server/src/identity/identityService.ts:350-355 | seen from the listing: no continuation of it makes the cascade fail iff the host has no usable agent at that moment |
| Interleaving.StragglersWerePendingOrLate | apps/server/src/identity/identityService.ts:157-178 | under every schedule an agent usable after a completed cascade was a pending row at the listing, or was made later, some registration having passed its host check by then |
| Interleaving.HostInvariantSurvivesExactlyWhen | apps/server/src/identity/identityService.ts:340-356 | in every continuation of a listing no agent of the host is usable once the cascade has ended well, iff at the listing no row of the host is pending and no registration under it stands between host check and insert |
| Interleaving.ListsOnlyRevokedAlong | apps/server/src/identity/identityService.ts:348-350 | in every reachable state a revocation that is listing or cascading has its host revoked |
| Interleaving.ActiveAgentUnderRevokedHost | apps/server/src/identity/identityService.ts:157-178 | an instance: a registration and a host revocation both succeed and the host invariant is broken |
| Interleaving.CascadeStopsEarly | apps/server/src/identity/identityService.ts:350-355 | an instance: the cascade fails at an agent someone else revoked, the next agent stays active, and a retry does nothing |
| Interleaving.AbsoluteClockTakesOneValue | apps/server/src/identity/identityService.ts:310-316 | under every schedule an absolute clock, once set, is never replaced by another value (when it may be lost is `ClockIsKeptExactlyWhen`) |
| Interleaving.ClockIsKeptExactlyWhen | apps/server/src/identity/identityService.ts:302-316 | once set, the absolute clock is the same in every later state of every schedule iff no reactivation that read the row before it was stamped can still reach its own stamp |
| Interleaving.ClockStaysAwayExactlyWhen | apps/server/src/identity/identityService.ts:178-186 | an agent without an absolute clock never gets one, under any schedule, iff neither its registration nor a reactivation that remembers a clock can still reach its stamp |
| Interleaving.AgentWithoutAbsoluteClock | apps/server/src/identity/identityService.ts:302-316 | an instance: a schedule after which an active agent has no absolute clock from the start |
| ReplayCache.JtiCache.Has | packages/storage/src/drivers/postgres/jtiCacheRepository.ts:13-19 | present iff the row's window has not ended |
| ReplayCache.JtiCache.Put | packages/storage/src/drivers/postgres/jtiCacheRepository.ts:26-34 | recorded iff no live row exists; otherwise nothing changes |
| ReplayCache.JtiCache.PurgeExpired | packages/storage/src/drivers/postgres/jtiCacheRepository.ts:36-39 | removes exactly the rows whose window has ended, counts them, and changes no answer from now on |
| ReplayCache.ClaimValidationStage.Execute | apps/server/src/auth/stages/claimValidationStage.ts:21-48 | the checks in their order, then the jti is recorded for lifetime plus skew or the replay is refused |
| ReplayCache.FaithfulAlong | packages/storage/src/drivers/postgres/jtiCacheRepository.ts:21-34 | along every run with purges the table agrees, for every jti and every instant to come, with the full history of acceptances |
| ReplayCache.CacheDecidesLikeHistory | apps/server/src/auth/stages/claimValidationStage.ts:26-47 | accepted iff audience, lifetime, issue time and jti are as demanded and no earlier acceptance of the jti covers this instant; called a replay iff they are and one does |
| ReplayCache.NoReplayWithinWindow | apps/server/src/auth/stages/claimValidationStage.ts:42-47 | a recorded jti is refused up to and including (exp + skew) seconds, whatever happens in between |
| ReplayCache.AtMostOnce | apps/server/src/auth/stages/claimValidationStage.ts:26-47 | with time in whole seconds no token is accepted twice in a whole run |
| ReplayCache.ReplayPassesExactlyInTheGap | apps/server/src/auth/stages/claimValidationStage.ts:26-34 | in milliseconds a token passes again iff the two clock readings straddle the end of its window |
| ReplayCache.AcceptedTwiceInTheFinalSecond | apps/server/src/auth/stages/claimValidationStage.ts:26-34 | a run in which that happens |
| Pipeline.JwtPipeline.VerifySignature | apps/server/src/auth/stages/signatureVerifyStage.ts:25-61 | resolves agent, host and claims only for a known principal whose key verifies; an error leaves the context alone |
| Pipeline.JwtPipeline.CheckCapability | apps/server/src/auth/stages/capabilityConstraintStage.ts:24-50 | token restriction, live grant, constraints; the grant is attached iff all pass |
| Pipeline.JwtPipeline.Run | apps/server/src/auth/jwtPipeline.ts:26-30 | the loop runs the stages in order up to the first error, on the context and the replay rows |
| Pipeline.HostPipelineDecides | apps/server/src/auth/stages/index.ts:38-46 | accepted iff every check holds by itself, in no order; the error is the first failing stage's; a jti is used up iff type, signature and claims are all good |
| Pipeline.AgentPipelineDecides | apps/server/src/auth/stages/index.ts:25-36 | the same for the five agent stages, and the grant handed on is the live one iff a capability was asked for |
| Pipeline.HostAcceptedExactlyWhen | apps/server/src/auth/stages/stateCheckStage.ts:16-33 | read off the rows: accepted iff the token is a `host+jwt` signed with the key of a known host, for this gateway, in its time, not used yet, and that host is active |
| Pipeline.HostStateDecides | apps/server/src/auth/stages/stateCheckStage.ts:21-33 | with such a token the host's status alone decides, and a refusal names it |
| Pipeline.AgentAcceptedExactlyWhen | apps/server/src/auth/stages/index.ts:25-36 | read off the rows: accepted iff such an `agent+jwt` names a known agent that is active, under an active host, within its three clocks, and has a live grant whose constraints admit the arguments, if a capability is asked for |
| Pipeline.RefusalHasItsReason | apps/server/src/auth/jwtPipeline.ts:26-30 | every error of either pipeline is true of the request or of the rows it names |
| Pipeline.RevokedHostIsRefused | apps/server/src/auth/stages/stateCheckStage.ts:21-33 | over runs: a host's own token is refused in every state after the host's revocation, a good one because of it |
| Pipeline.RowsAreTheCaches | apps/server/src/auth/stages/claimValidationStage.ts:42-47 | over runs of the host and agent pipelines, mixed, and purges the replay rows are those of the cache run on the genuine tokens only |
| Pipeline.TokenAcceptedAtMostOnce | apps/server/src/auth/stages/claimValidationStage.ts:26-47 | with time in whole seconds no token, a host's or an agent's, is accepted twice, whatever other logins of either kind, forged tokens, refusals and purges come in between |
| Grants.GrantService.Replace | packages/storage/src/drivers/postgres/capabilityGrantRepository.ts:46-75 | delete then insert: the pair's rows go, one new row comes, nothing else moves |
| Grants.GrantService.Lookup | packages/storage/src/drivers/postgres/capabilityGrantRepository.ts:86-95 | a newest active unexpired grant of the pair, and none only if there is none |
| Grants.GrantService.GrantCapability | apps/server/src/identity/identityService.ts:228-259 | granted iff the host owns the agent and the connection is not another project's; the grant carries the operator's constraints, connection and operation and replaces the pair's; each refusal changes nothing |
| Grants.GrantService.RequestCapability | apps/server/src/identity/identityService.ts:261-288 | the loop answers each request in order from the state the earlier ones left, and keeps the invariant |
| Grants.GrantService.StartTask | apps/server/src/identity/identityService.ts:420-454 | one task, expiring the time to live from now if one is given, and one upsert per capability, in order, each with the entry's own constraints and the task's number and expiry |
| Grants.GrantService.FinishTask | apps/server/src/identity/identityService.ts:456-472 | every grant of the task is denied and the task completed, or the error and no change |
| Grants.FindActiveFinds | packages/storage/src/drivers/postgres/capabilityGrantRepository.ts:85-95 | with one row per pair, the lookup returns a live grant iff there is one, and that one |
| Grants.SoundAlong | packages/storage/src/drivers/postgres/capabilityGrantRepository.ts:46-52 | in every reachable state at most one grant per (agent, capability), every task grant shares its task's agent, expiry and fate, and no other grant expires |
| Grants.TasksTellHistory | apps/server/src/identity/identityService.ts:420-472 | in every reachable state the tasks are those the events created, each with the agent, host and expiry of that event, open until its own host completes it |
| Grants.ShownExactlyWhen | apps/server/src/identity/identityService.ts:474-481 | a task is shown as completed iff its host completed it, else as expired from its creation + time to live on, else as active |
| Grants.AuthorityTellsHistory | apps/server/src/identity/identityService.ts:228-288 | over every run the lookup finds exactly what the history gives: the last thing the agent's own host approved or assigned, with its constraints, connection and operation, unless it came with a task that was completed or whose time to live is over |
| Grants.RequestsAddNothing | apps/server/src/identity/identityService.ts:261-288 | for every request list, duplicates included, no lookup changes for anyone, now or later; only requested pairs without a live grant are touched; one answer per request, in order |
| Grants.FoundExactlyWhileShownActive | apps/server/src/identity/identityService.ts:474-481 | in every reachable state a task's grant is found iff the listing shows the task active |
| Grants.EndedTaskIsNeverFound | apps/server/src/identity/identityService.ts:464-466 | once a task shows as completed or expired no lookup returns a grant of it, then or later |
| Grants.IntrospectedExactly | apps/server/src/identity/identityService.ts:401-413 | introspection reports every capability the lookup grants, and one more exactly when it belongs to a task the listing shows as expired |
| Constraints.ConstraintEngine.Validate | apps/server/src/identity/constraintEngine.ts:126-137 | reports exactly the violated fields, once each; empty iff every field obeys its constraint; an unknown operator is an error, never ignored |
| Constraints.ValidExactlyWhen | apps/server/src/identity/constraintEngine.ts:40-58 | what each operator wants of the value itself: `max` and `min` a number that is there, `in` a listed scalar, `not_in` none of the listed, an exact value that very scalar |
| Constraints.ConstraintEngine.Intersect | apps/server/src/identity/constraintEngine.ts:139-154 | the loop builds the field-wise result, with a field of one side only kept as it is, and refuses iff some field refuses |
| Constraints.FieldMeet | apps/server/src/identity/constraintEngine.ts:69-122 | on one field the result admits exactly what both admit, and it refuses exactly on an unknown operator or on an exact value the other does not admit |
| Constraints.MergeIsMeet | apps/server/src/identity/constraintEngine.ts:98-121 | two operator objects combine to exactly their conjunction |
| Constraints.RecordMeet | apps/server/src/identity/constraintEngine.ts:139-154 | arguments are valid under the result iff valid under both; after a conflict no arguments are valid under both |
| Constraints.AnyOrderAnyBracketing | apps/server/src/identity/constraintEngine.ts:9-10 | folding the same set of constraint records in any order and bracketing, with repetitions, gives the same meaning or the same failure |
| Constraints.AdmitsExactlyWhen | apps/server/src/identity/constraintEngine.ts:40-58 | a constraint admits some value iff it is exact, its `in` list holds a value the rest admits, or without such a list the bounds leave an interval or one number not excluded |
| Constraints.RecordAdmitsExactlyWhen | apps/server/src/identity/constraintEngine.ts:126-137 | a record admits some arguments iff every field does |
| Constraints.FoldAdmitsExactlyWhen | apps/server/src/identity/constraintEngine.ts:139-154 | records that fold without a conflict can be satisfied together iff every field of the result leaves room, however they were folded |
| Constraints.IntersectLeavesRoomExactlyWhen | apps/server/src/identity/constraintEngine.ts:139-154 | two records can be satisfied together iff they intersect and every field of the result leaves room |
| Constraints.EmptyRangeIsNotAConflict | apps/server/src/identity/constraintEngine.ts:104-109 | an instance: two records whose ranges exclude each other intersect without a conflict, to a field without room |
| RateLimiter.FixedWindowLimiter.CheckKey | apps/server/src/server/rateLimiter.ts:23-44 | one call, with its sweep, new or live bucket, count and retry-after, on the limiter's state |
| RateLimiter.FixedWindowLimiter.Sweep | apps/server/src/server/rateLimiter.ts:26-33 | drops exactly the buckets whose window is over |
| RateLimiter.SweepingIsInvisible | apps/server/src/server/rateLimiter.ts:22-44 | with a non-decreasing clock, under either sweep rule, every answer is that of a limiter that never sweeps |
| RateLimiter.AllowedExactlyWhen | apps/server/src/server/rateLimiter.ts:34-43 | read off the calls: one is allowed iff no more calls of its key than its limit fall in the window opened by the first call after the window before; other keys do not matter |
| RateLimiter.RetainedKeysAreRecent | apps/server/src/server/rateLimiter.ts:4-8 | after each call every retained key was hit within the last two windows |
| RateLimiter.SpanBound | apps/server/src/server/rateLimiter.ts:34-43 | however the limit changes, no run in which it stays at most `max` for a key lets more than `Worst` hits of the key through in any span |
| RateLimiter.TwiceTheLimitPerWindow | apps/server/src/server/rateLimiter.ts:34-43 | a half-open interval of one window holds at most twice the highest limit |
| RateLimiter.WorstIsReached | apps/server/src/server/rateLimiter.ts:34-43 | for every limit, window and span some run with that limit throughout reaches the bound |
| RateLimiter.PerStartedWindowExactlyWhen | apps/server/src/server/rateLimiter.ts:34-43 | limit * (floor(D / W) + 1) bounds every run iff W divides D or the limit is at most 1 |
| RateLimiter.RetryAfterIsExact | apps/server/src/server/rateLimiter.ts:40-42 | after a denial the next hit passes once the reset has come and, the limit not raised, not before; the reset comes within the announced seconds and not one second earlier |
| ExecuteGates.ConnectionProxy.Execute | apps/server/src/connections/connectionProxy.ts:51-146 | the early exits, in their order, on the proxy's counters |
| ExecuteGates.ConnectionProxy.Count | apps/server/src/connections/connectionProxy.ts:101-115 | the proxy's second limiter counts and answers as the shared fixed-window arithmetic with a 60 second window |
| ExecuteGates.ConnectionProxy.Sweep | apps/server/src/connections/connectionProxy.ts:39-49 | nothing within a minute of the last sweep, otherwise exactly the buckets that are over |
| ExecuteGates.SequenceIsOrderFree | apps/server/src/connections/connectionProxy.ts:51-146 | the connector is called iff every gate is content by itself; the error is the first unhappy gate's; the budget is charged iff the gates before it are content, whatever the later ones say |
| ExecuteGates.ExecutesExactlyWhen | apps/server/src/connections/connectionProxy.ts:51-146 | read off the rows: the connector is called iff the mapping is complete, its connection there and not another project's, the operation on the connection's list and on that of the agent's first authorization for it, the budget not used up, the policy's verdict `Allow`, and driver and credential there |
| ExecuteGates.ChargedExactlyWhen | apps/server/src/connections/connectionProxy.ts:89-118 | a request is counted, under its agent and connection, exactly if it passes the lists and the authorization has a positive limit, whatever the later gates say |
| ExecuteGates.RefusalHasItsReason | apps/server/src/connections/connectionProxy.ts:51-146 | every error is true of the rows it names |
| ExecuteGates.CountersAreTheLimiters | apps/server/src/connections/connectionProxy.ts:34-49 | over every run the proxy's buckets are those of the limiter on the calls it counted |
| ExecuteGates.ExecutionsAreBounded | apps/server/src/connections/connectionProxy.ts:101-115 | an agent whose limit on a connection may change but never exceeds `max` executes there at most `Worst` times in any span, at most twice `max` in one window, whatever else changes between requests |
| ExecuteGates.KeysAreDistinct | apps/server/src/connections/connectionProxy.ts:102 | two (agent, connection) pairs share a bucket iff they are the same pair, agent ids having no colon |
| ExecuteGates.Blocked | apps/server/src/routes/adminRoutes.ts:287-297 | with a connection and an operation, set iff the connector authorizations have something against them; with the operation missing, iff there are authorizations and none for the connection; without a connection, never |
| ExecuteGates.BlockedIsTheAuthorizationGate | apps/server/src/routes/adminRoutes.ts:287-297 | for a grant that names both, whether or not the connection exists, the flag is what the authorizations say, and where it exists the verdict of their gate |
| ExecuteGates.OpenOperationIsBlockedIff | apps/server/src/routes/adminRoutes.ts:287-297 | an operation left open is flagged iff every operation would be refused because of the connection |
| ExecuteGates.BlockedDecidesAlone | apps/server/src/routes/adminRoutes.ts:277-280 | with every other gate content the connector is reached iff the flag is not set |
| ExecuteGates.BlockedNeverExecutes | apps/server/src/routes/adminRoutes.ts:277-280 | a blocked grant never reaches the connector and is never counted, whatever else holds |
| Paging.ListingIsSorted | packages/storage/src/drivers/postgres/auditLogRepository.ts:87-90 | the listing holds each row once, in descending (created_at, id) order |
| Paging.SortedIsUnique | packages/storage/src/drivers/postgres/auditLogRepository.ts:87-90 | and it is the only sequence that does |
| Paging.AuditLogRepository.Append | packages/storage/src/drivers/postgres/auditLogRepository.ts:46-64 | one row more, ids still distinct |
| Paging.AuditLogRepository.Find | packages/storage/src/drivers/postgres/auditLogRepository.ts:66-95 | the collected conditions, the extra row fetched and the cut give exactly one page of the filtered listing beneath the cursor |
| Paging.PageExactly | packages/storage/src/drivers/postgres/auditLogRepository.ts:66-95 | read off the rows: the page holds the newest of the rows the filters and the cursor ask for, newest first and then by greater id, as many as fit; it announces more iff it leaves some out, with a cursor to the millisecond of its last row |
| Paging.ClampLimit | packages/storage/src/drivers/postgres/rowMappers.ts:84-87 | 50 when nothing is asked, the asked size between 1 and 200, the nearer bound otherwise |
| Paging.WalkServesAtMost | packages/storage/src/drivers/postgres/agentRepository.ts:56-84 | for every row set and page size a walk ends and serves no more rows than lie beneath its cursor |
| Paging.WalkReproducesListingExactlyWhen | packages/storage/src/drivers/postgres/agentRepository.ts:56-84 | following the cursors gives the full sorted list iff each page boundary is safe for the millisecond cursor, then in exactly the expected number of pages |
| Paging.PagingIsExact | packages/storage/src/drivers/postgres/agentRepository.ts:56-84 | with creation times in whole milliseconds, or in different ones, every walk reproduces the list, nothing skipped or repeated, in max(1, ceil(n / limit)) pages |
| Paging.RowSkippedWithinAMillisecond | packages/storage/src/drivers/postgres/rowMappers.ts:70-73 | two rows in one millisecond, one row per page: a row is skipped |
| Paging.WalkIgnoresNewerRows | packages/storage/src/drivers/postgres/agentRepository.ts:59-67 | rows inserted at or above the cursor between pages never change the pages still to come |
| Paging.CursorRoundTrip | packages/storage/src/drivers/postgres/rowMappers.ts:71-82 | decoding undoes encoding, for every id, iff the printed time has no bar |
| SchemaRouter.TokenRouter.GetToolSchema | apps/server/src/router/tokenRouter.ts:43-87 | access check first, then cache, registry, adapter and origin, with the cache and the stored schema updated exactly on a fetch |
| SchemaRouter.TokenRouter.Lookup | apps/server/src/router/schemaCache.ts:21-31 | a hit strictly before expiry; an expired entry is dropped |
| SchemaRouter.TokenRouter.Remember | apps/server/src/router/schemaCache.ts:32-37 | stored for the time to live, and not at all when that is not positive |
| SchemaRouter.TokenRouter.RegisterTool | apps/server/src/routes/toolRoutes.ts:31-56 | a valid registration replaces the row, clears its stored schema and drops the cached one; an invalid one changes nothing |
| SchemaRouter.TokenRouter.Flush | apps/server/src/router/schemaCache.ts:41-43 | the cache is empty |
| SchemaRouter.RegistryTellsHistory | apps/server/src/routes/toolRoutes.ts:37-53 | over every run a tool is registered iff some accepted registration of it occurred, and its row carries the adapter type and config of the last one |
| SchemaRouter.RefusedExactlyWhen | apps/server/src/router/tokenRouter.ts:43-69 | why a query is not served: no grant, no registration among the events, or no adapter for the last one's type, each exactly then; or its origin fails |
| SchemaRouter.CachedExactlyWhen | apps/server/src/router/schemaCache.ts:21-43 | an answer comes from the cache iff the tool was fetched less than one time-to-live ago and neither registered anew nor flushed since, and it is that fetch's schema |
| SchemaRouter.ServedIsCurrent | apps/server/src/router/tokenRouter.ts:43-87 | over every run a schema goes only to a caller with a grant, and it is what the last registration among the events gave less than one time-to-live ago |
| SchemaRouter.StoredSchemaIsCurrent | packages/storage/src/drivers/postgres/toolRepository.ts:32-50 | the schema kept with a tool is never that of an earlier registration than the last among the events |
| SchemaRouter.InvisibleExactlyWhenSteady | apps/server/src/router/schemaCache.ts:17-18 | the cached router gives the schemas and errors of one with caching disabled, over every run, iff origins are steady for one time-to-live |
| SchemaInterleaving.ServedIsCurrentExactlyWhen | apps/server/src/router/tokenRouter.ts:52-69 | step by step: from the end of a registration until the next, later requests are served only its schemas under every schedule iff caching is off or no request still waits for an earlier origin that may answer |
| SchemaInterleaving.KeptIsCurrentExactlyWhen | apps/server/src/router/tokenRouter.ts:64-68 | and the row keeps only its schemas iff, further, no request carries an older schema towards the row |
| Cidr.Ipv4ToInt | apps/server/src/auth/ipGuard.ts:7-24 | the loop computes the parse, or none for any bad part |
| Cidr.ToInt | apps/server/src/server/ipFilter.ts:18-32 | the same for the filter's parser |
| Cidr.MaskIsBlock | apps/server/src/auth/ipGuard.ts:26-33 | the masked comparison on 32-bit integers equals equality of the quotients by 2^(32-bits), for bits 0 to 32 |
| Cidr.BlockIsInterval | apps/server/src/auth/ipGuard.ts:31-32 | a block is one interval of addresses |
| Cidr.NestedOrDisjoint | apps/server/src/server/ipFilter.ts:38-39 | two blocks that share an address are nested |
| Cidr.ParsersAgree | apps/server/src/server/ipFilter.ts:18-32 | wherever the guard's parser succeeds the filter's parser gives the same address |
| Cidr.PrintParse | apps/server/src/auth/ipGuard.ts:7-24 | printing then parsing is the identity on all 32-bit values |
| Cidr.BlockedExactly | apps/server/src/auth/ipGuard.ts:35-53 | blocked iff unparseable or in a fixed union of integer intervals |
| Cidr.MatchesEntry | apps/server/src/server/ipFilter.ts:5-40 | matches iff the text is equal, or the entry is a readable block that contains the address |
| Templates.ScanIsLossless | packages/connectors/src/manifest/manifestDriver.ts:17 | the pieces found by the scanner, put together, are the template |
| Templates.SlotsAreOccurrences | packages/connectors/src/manifest/manifestDriver.ts:17 | the placeholders of a text are exactly the non-empty words that stand in braces anywhere in it, whatever comes before and after |
| Templates.SubstituteBack | packages/connectors/src/manifest/manifestDriver.ts:17 | substitution copies everything that is no placeholder, in place and in order |
| Templates.BracedWordIsASlot | packages/connectors/src/manifest/manifestDriver.ts:17 | where the scan stands at a braced non-empty word, that word is the next placeholder, whatever follows |
| Templates.FillTemplate | packages/connectors/src/manifest/manifestDriver.ts:15-26 | the template with each placeholder replaced by the secret's own value for it, or by nothing; `missing` iff some placeholder has none |
| Templates.FillingIsSubstitution | packages/connectors/src/manifest/manifestDriver.ts:15-26 | filling piece by piece is that substitution, for every template and secret |
| Templates.NormalizedValues | packages/connectors/src/manifest/manifestDriver.ts:62-69 | `basic`, when not given, stands for the encoded `username:password`; every other placeholder for what was given |
| Templates.ValidateCredential | packages/connectors/src/manifest/manifestDriver.ts:71-77 | ok iff every placeholder of every template has a value in the normalized secret |
| Templates.CollectKeys | packages/connectors/src/manifest/connectorManifest.ts:51-59 | the placeholders of all templates, each once, in order of first mention (`FirstMentionsGrow`, `AllSlotsInOrder`) |
| Templates.FirstMentionsGrow | packages/connectors/src/manifest/connectorManifest.ts:51-59 | later mentions never change the order of the earlier ones |
| Templates.DeriveCredentialFields | packages/connectors/src/manifest/connectorManifest.ts:47-71 | the fields the manifest names, or else those of its placeholders in order of first mention, with their labels and with the secret flag wherever the key, in any case, holds one of the hints, `basic` as username and password |
| Templates.AcceptedExactly | packages/connectors/src/manifest/manifestDriver.ts:62-77 | a secret passes iff it has every non-basic placeholder and, where `{basic}` occurs, `basic` or `username` |
| Templates.CompleteFormIsAccepted | packages/connectors/src/manifest/connectorManifest.ts:47-71 | a secret with every derived field passes |
| Templates.ResolveBase | packages/connectors/src/manifest/manifestDriver.ts:112-118 | the secret's own base URL, or else the manifest's, filled and without slashes at its end; an error if a placeholder has no value or nothing comes out |
| Templates.BaseFillsExactlyWhen | packages/connectors/src/manifest/manifestDriver.ts:110-118 | a secret that validation accepts fills the base URL in use iff that is the manifest's and not empty, or its own, not empty and with a value for each of its placeholders |
| Templates.ResolvePath | packages/connectors/src/manifest/manifestDriver.ts:140-145 | placeholders take their arguments; what is left is the arguments no placeholder names |
| Templates.RouteArguments | packages/connectors/src/manifest/manifestDriver.ts:139-160 | on the path's own query the manifest's parameters are set one by one, and over them, on GET and HEAD, the rest of the arguments, which otherwise becomes the body |
| Templates.PathIsSubstitution | packages/connectors/src/manifest/manifestDriver.ts:141-145 | the resolved path is the template with one text per placeholder, a repeated one getting the empty value |
| Templates.PathTexts | packages/connectors/src/manifest/manifestDriver.ts:141-145 | that text is the encoded argument on a placeholder's first mention, and the encoded nothing for a repeated, missing or null one |
| Templates.ArgumentsAreConserved | packages/connectors/src/manifest/manifestDriver.ts:139-159 | in the request sent, an argument a placeholder names is in the path and nowhere else, any other is once and unchanged in the query or the body, and nothing else is there but the parameters of the path and the manifest |
| Templates.ManifestKeptInCall | packages/connectors/src/manifest/manifestDriver.ts:147-155 | the manifest's query parameters arrive as they are iff no left-over argument of a GET or HEAD brings another value under one of their names |
| Templates.ManifestKeptExactlyWhen | packages/connectors/src/manifest/manifestDriver.ts:147-155 | whatever the values, they do iff no argument other than a placeholder has one of their names |
| Templates.OwnQueryKeptExactlyWhen | packages/connectors/src/manifest/manifestDriver.ts:146-155 | whatever the values, they do iff none that some arguments put there has the name of a manifest parameter or, on GET and HEAD, of an argument that is not a placeholder |
| Templates.OwnNamesKeptExactlyWhen | packages/connectors/src/manifest/manifestDriver.ts:146-155 | with placeholders only in the values of that query this is a condition on names: none of its own is a manifest parameter's or, on GET and HEAD, a left-over argument's |
| Templates.AllSlotsFilledIffDistinct | packages/connectors/src/manifest/manifestDriver.ts:141-145 | the resolved path is the template with every placeholder filled by its own argument, for all arguments, iff no placeholder repeats |

## Left out

- Signatures, key resolution, base64, JSON, ISO time printing and percent-encoding are parameters; only the named facts about them are used.
- SQL text and pools: tables are sets, maps or sequences with the same row effects. Ids are numbers; a UUID's order is taken as the order of numbers.
- The gateway's and the database's clock are one clock, except in the replay cache and the pipeline, where each reading is its own.
- In `Identity.dfy` an operation reads its clock once; `Interleaving.dfy` lets every call read any clock.
- The last read of a registration and of a reactivation, which only fetches the row to return.
- Moves to `expired`, `claimed` and `rejected`, and approval of hosts, are part of runs although no operation of the service asks for them: the tables allow them.
- Key rotation, metadata updates, project creation and deletion, and moving agents between projects touch none of the modelled state or only add easy members.
- `touchSession`, and the grant repository's `setStatus` and `revokeAllForAgent`, are called by no service, stage or route.
- Interleavings inside a grant upsert and inside tasks.
- Constraints.ConstraintEngine.Validate: the order of violations and which unknown operator is reported first are not fixed, since a record is a map here.
- Numbers in constraints are reals without NaN; names inherited from object prototypes do not occur.
- Paging.AuditLogRepository.Find: the `from` and `to` filters, which the query ignores; the agent listing is the same walk without a filter.
- The 200-task limit of the task listing; its per-task status is what is modelled.
- Cidr.MatchesEntry: how `Number` reads text is a parameter; the allow and deny decision on top of it is one negation.
- IPv6 classification.
- Templates.DeriveCredentialFields: the default label is a parameter.
- Templates.RouteArguments: GraphQL operations and headers; reading a query out of a URL is a parameter, and a name that the URL gives twice counts once.
- ExecuteGates.ConnectionProxy.Execute: risk levels, the audit entry, decryption and the connector call itself.
- SchemaRouter.TokenRouter.GetToolSchema: the audit entry, the token estimate and the metric.
- Identity.IdentityService.Introspect: the claims echoed from the token; the capability list is `Grants.IntrospectedExactly`.
