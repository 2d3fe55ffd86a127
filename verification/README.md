# Verification of the actor server's stateful core

The server keeps its state in a handful of components that hand objects, ids and sessions from
owner to owner.  This project models them in Dafny and proves what every call, every run and every
interleaving keeps.

| component | files | main results |
|---|---|---|
| object pool | `RecyclerSizing`, `RecyclerSteps`, `RecyclerFrames`, `RecyclerInvariant`, `RecyclerTheorems`, `GrowthReadings`, `SoloRuns`, `Recycler` | in every interleaving of atomics and critical sections each live node is in exactly one place, no count exception and no dangling access occurs, the control block is deleted once; growth and shrink bounds |
| ids and their clients | `IdentAllocator`, `IdOwnership`, `TimerSteps`, `TimerManager` | free and outstanding ids partition 1..next; with any number of threads each outstanding id has one owner |
| service registry | `ServiceSteps`, `ServiceTheorems`, `ServiceRuns`, `ServiceConditions`, `ServiceRaces`, `ServiceModule` | at lock granularity the registry refines the id client; sequentially its indexes stay inverse and one call undoes another; exactly when interleaving takes services, names and tickers apart |
| collector | `GcGraph`, `GcTable` | marking over cyclic heaps computes reachability; what one and two collections keep, with exact conditions |
| login sessions | `GatewaySteps`, `GatewayInvariant`, `GatewayTheorems`, `CachePurge`, `Gateway` | at most one player instance per id and conservation of instances over every run; exactly when a player is lost and when a null player is followed |
| packets | `PacketFrames`, `PacketCodec` | headers are in bijection with 24 bytes in network order; streams of packets round-trip; when they do not |
| events | `EventListeners`, `EventModule` | nested maps refine a relation; purges cannot be observed |
| draw, paths | `RandomDraw`, `SplitString`, `ServiceFactory` | exact fairness of the draw; split and join; which names a path reaches |

Three shapes recur.  A `...Steps` module is a transition system whose runs are all interleavings (or
all sequences of operations); its theorems quantify over runs.  A class has the fields of the
source's class and methods that update them in place; each method is proved against a function that
is itself proved to be a run of the transition system, so the theorems hold between any two calls.
Where the source departs from its evident intent, a parameter selects the reading (`Guards`,
`Sizing`, `Reading`) or a lemma shows what the text as written does.

## Model

| member | source | states |
|---|---|---|
| RecyclerTheorems.NoFault | src/base/Recycler.cpp:68-105 | from any initialized pool, in every interleaving, neither count exception is reachable and no destroyed node or control block is touched |
| RecyclerTheorems.EveryNodeInOnePlace | src/base/Recycler.h:117-144 | each live node is idle with count -10, or held with count equal to its handles, or carried by one thread, or dropped by a failed growth, and only one of these |
| RecyclerTheorems.NodesAreConserved | src/base/Recycler.cpp:179-240 | queue, usage, uncounted transit and dropped nodes add up to the live nodes, so a snapshot never overstates capacity |
| RecyclerTheorems.BlockIsDeletedOnce | src/base/Recycler.cpp:18-66 | the control block counts the live nodes and the live pool; at zero the pool is gone and exactly one thread deletes it |
| RecyclerTheorems.GoneStaysGone | src/base/Recycler.h:329-345 | a destroyed node is never live again in any continuation, so none is destroyed twice |
| RecyclerTheorems.NothingLeaks | src/base/Recycler.cpp:126-142 | when pool, handles and threads are gone only nodes dropped by failed growth remain, and without one the control block is deleted |
| RecyclerTheorems.GrowthLosesIff | src/base/Recycler.cpp:197-235 | a growth drops its node exactly when the usage it read was 1, else it queues usage - 1 nodes |
| RecyclerTheorems.ConcurrentGrowthFails | src/base/Recycler.cpp:197-224 | an interleaving from two nodes leads to a state in which growth has thrown and dropped its node, although no sequential run does |
| RecyclerTheorems.MissedAcquireThrowsIff | src/base/Recycler.cpp:197-224 | an acquire that missed throws exactly when the usage it then reads is at most 1, whatever happens before it publishes |
| RecyclerTheorems.OneShrinkAtATime | src/base/Recycler.cpp:338-361 | a push starts a background shrink only when none is under way |
| RecyclerTheorems.ShrinkKeepsTheFloor | src/base/Recycler.cpp:284-292 | the deletion of any shrink, in the background or called, from a stale count leaves 64 live nodes less those that other shrinks freed since its snapshot, and touches no held or carried node |
| RecyclerTheorems.OverlapPassesTheFloorIff | src/base/Recycler.cpp:255-292 | overlapping calls of the public Shrink can leave fewer than 64 live nodes in some run exactly when the settings free any node at all: a positive threshold, and a rate below 1 that takes one of the largest total |
| RecyclerTheorems.BackgroundAloneKeepsTheFloor | src/base/Recycler.cpp:338-361 | in every run without direct calls of Shrink each deletion leaves 64 live nodes |
| RecyclerSizing.ShrinkLeavesFloor | src/base/Recycler.cpp:258-275 | with a shrink count of at least 64 and a rate in [0, 1] the decided number leaves 64 of the snapshot |
| RecyclerSizing.SaneShrinkNum | src/base/Recycler.cpp:258-276 | with such settings the decided number is the rated part of the total cut off at the floor, once the total has reached the shrink count and usage is low; a rate that takes all takes none |
| RecyclerSizing.RespectsFloorIff | src/base/Recycler.cpp:258-276 | no decision, from any snapshot whose rated number fits `size_t`, passes the floor of 64 exactly when the threshold is not positive, or the rate is 1, or it is less and the shrink count at least 64, or it is more and no total past the count has such a rated number |
| RecyclerSizing.DefaultShrinkNum | src/base/Recycler.cpp:258-276 | the default settings free half of the total exactly when it is at least 512 and usage is below three quarters |
| RecyclerSizing.DefaultShrinkHalves | src/base/Recycler.cpp:258-292 | a firing shrink leaves max(usage, ceil(T/2)) nodes and frees more than a quarter, else nothing changes |
| RecyclerSizing.EffectiveShrinksAreLogarithmic | src/base/Recycler.cpp:258-292 | with usage fixed, n effective calls need more than 511 * 2^(n-1) nodes |
| RecyclerSizing.SequentialRunIsBounded | src/base/Recycler.cpp:144-155 | over any sequential run from c0 >= 2 no acquire throws and live nodes stay within max(c0, 2 * (peak usage - 1)) |
| RecyclerSizing.NoRunThrowsIff | src/base/Recycler.cpp:197-224 | the growth exceptions stay out of every sequential run exactly when the pool starts with two nodes |
| SoloRuns.CopyIsRun | src/base/Recycler.h:117-123 | an undisturbed copy: a run of the atomic steps leads from the state to the one with one more on the count and one more handle, and nothing else different |
| SoloRuns.ReleaseIsRun | src/base/Recycler.h:329-345 | an undisturbed release: a run of the atomic steps leads from the state to one without the handle; with others left only the count falls by one, the last one returns its node to the queue of a live pool with count -10 and usage one less, or destroys it when the pool is dead |
| SoloRuns.AcquireIdleIsRun | src/base/Recycler.cpp:179-195 | an undisturbed acquire of an idle node: a run hands out the front of the queue with count 1 and usage one more, as the sequential tally says |
| SoloRuns.GrownIsRun | src/base/Recycler.cpp:197-245 | an undisturbed growth at usage N >= 2: a run adds exactly N nodes, the last but one of them handed out with count 1 and the others queued once each with count -10 |
| SoloRuns.GrowthFailedIsRun | src/base/Recycler.cpp:197-224 | an undisturbed growth of one node: a run leads to the state that has created and dropped it and is otherwise the same |
| SoloRuns.FreedIsRun | src/base/Recycler.cpp:248-296 | an undisturbed call of Shrink: a run destroys the decided number of nodes, or all there are, from the front of the queue and changes nothing else |
| SoloRuns.ShrunkIsRun | src/base/Recycler.cpp:248-296 | an undisturbed background shrink: a run does the same and lets the next push start another |
| SoloRuns.DestroyedIsRun | src/base/Recycler.cpp:126-142 | an undisturbed destruction: a run destroys the idle nodes and clears the pool pointer; handles stay, and the block is deleted exactly when no node is left |
| GrowthReadings.GrowthIsFollowedIff | src/base/Recycler.cpp:203-235 | with the vector pre-sized as written, whatever the queue holds when a successful growth publishes, a null node is followed exactly when later acquires and shrinks take more entries than stood before the first null, or the pool is destroyed |
| GrowthReadings.PoolIsReserved | src/base/Recycler.cpp:203-235 | every step of the pool does to its queue what the machine does when the vector is reserved, and follows no null |
| RecyclerClass.Recycler.constructor | src/base/Recycler.cpp:113-157 | construction and Initial make as many distinct idle nodes as asked, the start state of the runs |
| RecyclerClass.Recycler.Copy | src/base/Recycler.h:146-153 | copy and cast: one more on the node's count, one more handle on it, and no other field changed; a run of the atomic steps |
| RecyclerClass.Recycler.Move | src/base/Recycler.h:132-137 | a move renames a handle and changes no count |
| RecyclerClass.Recycler.Release | src/base/Recycler.h:329-345 | the handle goes; while others are left only the count falls by one; the last one queues the node with count -10, lowers usage and may start a shrink, or destroys the node and drops its reference to the block when the pool is dead; a run of the atomic steps |
| RecyclerClass.Recycler.Recycle | src/base/Recycler.cpp:322-361 | the node is queued with count -10 and a shrink starts when none runs and the total suffices |
| RecyclerClass.Recycler.DestroyOrphan | src/base/Recycler.cpp:35-43 | destroying a node lowers the block's count and deletes the block at zero without a pool |
| RecyclerClass.Recycler.Acquire | src/base/Recycler.cpp:175-246 | the front of the queue, or at usage N >= 2 one of N new nodes whose others fill the queue; nothing at usage 0, one dropped node at usage 1; the result is a node no handle had, counted once, and all other counts stay |
| RecyclerClass.Recycler.CreateNodes | src/base/Recycler.cpp:202-221 | the loop creates as many nodes as asked and the last but one is the result |
| RecyclerClass.Recycler.Shrink | src/base/Recycler.cpp:248-296 | the deletion loop takes the decided number of nodes, or all there are, from the front of the queue and touches nothing else |
| RecyclerClass.Recycler.WakeUp | src/base/Recycler.cpp:350-356 | the background coroutine shrinks and then lets the next push start another |
| RecyclerClass.Recycler.Destroy | src/base/Recycler.cpp:126-142 | the drain loop destroys exactly the idle nodes; the block is deleted exactly when none is held or dropped |
| Identifiers.IdentAllocator.Allocate | src/base/IdentAllocator.h:34-71 | any free id, else the next one |
| Identifiers.IdentAllocator.Recycle | src/base/IdentAllocator.h:73-102 | the id joins the free set and usage falls, clamped at zero |
| Identifiers.AllocationIsNew | src/base/IdentAllocator.h:34-56 | an allocation returns an id that was not outstanding and adds only it |
| Identifiers.RecycleKeepsIff | src/base/IdentAllocator.h:75-89 | a return keeps the books exactly for outstanding ids, or for a free one while nothing is outstanding |
| Identifiers.ForeignRecycleDuplicates | src/base/IdentAllocator.h:75-89 | after a foreign return one id is handed out twice |
| Identifiers.NextIsThePeak | src/base/IdentAllocator.h:34-89 | over any sequential history free and outstanding ids partition 1..next, usage counts the latter, next is their peak |
| IdOwnership.OneOwnerPerId | src/base/IdentAllocator.h:34-56 | in every interleaving each outstanding id is in the registry or in one thread's hand, never in both, and never free |
| IdOwnership.StepKeepsOwned | src/base/IdentAllocator.h:75-89 | every atomic step keeps single ownership and leaks nothing |
| Timers.TimerManager.CreateTimer | src/timer/TimerManager.cpp:21-50 | always succeeds with a new positive id; the map's ids are the outstanding ones |
| Timers.TimerManager.RemoveTimer | src/timer/TimerManager.cpp:74-80 | erases and returns the id of a known timer, else changes nothing |
| Timers.TimerManager.CancelAll | src/timer/TimerManager.cpp:66-72 | every timer is disowned and cancelled and none leaves the map |
| Timers.TimerManager.Finish | src/timer/Timer.cpp:67-69 | the end of a disowned timer removes nothing, so its id stays outstanding |
| TimerSteps.StepRefines | src/timer/TimerManager.cpp:21-80 | each locked section of the timer manager is a step of an id client or does not concern ids |
| TimerSteps.CreateIsRun | src/timer/TimerManager.cpp:21-50 | an undisturbed creation is a run that puts a free id, or else the next one, into the map |
| TimerSteps.RemoveIsRun | src/timer/TimerManager.cpp:74-80 | an undisturbed removal is a run that takes a known timer out of the map and returns its id, or changes nothing |
| TimerSteps.DuplicateIsNeverMet | src/timer/TimerManager.cpp:26-33 | in every interleaving of creations and removals the branch for a repeated id is not taken, no id is returned twice, and while the map's mutex is free an outstanding id is in the map or with one creation |
| ServiceTheorems.StepRefines | src/service/ServiceModule.cpp:211-268 | each locked section of the registry is a step of the id client or does not concern ids |
| ServiceTheorems.OneOwnerPerServiceId | src/service/ServiceModule.cpp:211-364 | in every interleaving of boots, both shutdowns, tickers and passes an outstanding id is owned by the map, one boot or one shutdown only, or was leaked by registration |
| ServiceTheorems.IdsAreNeverRepeated | src/service/ServiceModule.cpp:213-220 | "Service ID Repeated" is unreachable, the final insertion overwrites nothing, no id is returned twice |
| ServiceRuns.BootIsRun | src/service/ServiceModule.cpp:195-269 | an undisturbed boot is a run of the locked sections and keeps the registry orderly; an accepted one adds the service, its name and its requested ticker, any other changes no map and no ticker |
| ServiceRuns.StopByIdIsRun | src/service/ServiceModule.cpp:271-310 | an undisturbed shutdown by id is a run that takes the service, its name and its ticker out and returns its id, and keeps the registry orderly |
| ServiceRuns.StopByNameIsRun | src/service/ServiceModule.cpp:312-364 | an undisturbed shutdown by name is a run that takes the named service, its name and its ticker out and returns its id, and keeps the registry orderly |
| ServiceRuns.StopByNameIsStopById | src/service/ServiceModule.cpp:312-364 | between calls shutdown by name equals shutdown by the id of that name |
| ServiceRuns.BootIsAllOrNothing | src/service/ServiceModule.cpp:213-268 | a boot registers one service under a new id, with its ticker exactly if it asked for one, or leaves maps, tickers and outstanding ids as they were |
| ServiceRuns.StopUndoesBoot | src/service/ServiceModule.cpp:265-306 | a boot and its shutdown, by id or by name, restore maps and outstanding ids |
| ServiceRuns.HistoryIsSound | src/service/ServiceModule.cpp:195-386 | over any sequential history names and ids are mutually inverse, outstanding ids are the services' and the leaked ones, and tickers are registered as long as callers add none for other ids |
| ServiceRuns.CoreCensus | src/service/ServiceModule.cpp:44-79 | one core service adds its name and one outstanding id, which the map gets under a new name and the leak under a known one |
| ServiceConditions.OvertakenStopTakesIff | src/service/ServiceModule.cpp:318-360 | what a shutdown by name takes down, from any state and whatever other threads do after it erased the name: a service of another name exactly when the name already led to one and that was not withdrawn since, or when since then the id was inserted under that name (after the withdrawal and return of a service that had it) and not withdrawn again; nothing exactly when the id is registered for no service |
| ServiceConditions.BlockedAllAlongIff | src/service/ServiceModule.cpp:246-261 | a name taken by no service and by nobody under way stays so through a run exactly until a shutdown by that name |
| ServiceConditions.StopUnblocks | src/service/ServiceModule.cpp:312-327 | until then no boot under the name is accepted; an undisturbed shutdown by it makes the next one acceptable |
| ServiceConditions.TickerIsKeptIff | src/service/ServiceModule.cpp:145-157 | a service that asked for updates while it started has them at its insertion exactly when every pass and removal in between was followed by another request |
| ServiceConditions.IndexedIff | src/service/ServiceModule.cpp:265-268 | every step keeps each service's name leading to it except a boot's insertion, an erasure or a taking of a name that some registered service has |
| ServiceConditions.IndexedAllAlongIff | src/service/ServiceModule.cpp:246-327 | names lead to their services all along a run exactly when no step of it touches a name in use |
| ServiceRaces.StaleStopTakesAnother | src/service/ServiceModule.cpp:318-343 | a run in which an overtaken shutdown of one service takes down another, whose name then is taken by no service |
| ServiceRaces.NameLeadsToAnother | src/service/ServiceModule.cpp:318-360 | a run after which a name leads to a service of another name, which an undisturbed shutdown by that name takes down |
| ServiceRaces.EarlyPassDropsTicker | src/service/ServiceModule.cpp:145-157 | a run in which an update pass between start and registration drops the service's request |
| ServiceRaces.TwoBootsShareAName | src/service/ServiceModule.cpp:246-268 | a run in which two boots find one name free and are both accepted, and only one is found by it |
| ServiceRegistry.ServiceModule.BootService | src/service/ServiceModule.cpp:195-269 | while running a service that is created, initialized and started under a defined name that no other has is registered: the maps gain it under an id that was not outstanding and the tickers gain that id if asked; else maps, tickers and outstanding ids stay |
| ServiceRegistry.ServiceModule.ShutdownById | src/service/ServiceModule.cpp:271-310 | a registered service leaves both maps and the tickers and its id is returned; without effect unless running |
| ServiceRegistry.ServiceModule.ShutdownByName | src/service/ServiceModule.cpp:312-364 | the service of a known name leaves both maps and the tickers and its id is returned; without effect unless running |
| ServiceRegistry.ServiceModule.InsertTicker | src/service/ServiceModule.cpp:366-375 | adds a non-negative id while running, else nothing |
| ServiceRegistry.ServiceModule.RemoveTicker | src/service/ServiceModule.cpp:377-386 | removes a non-negative id while running, else nothing |
| ServiceRegistry.ServiceModule.UpdatePass | src/service/ServiceModule.cpp:145-157 | ticks exactly the registered ids of the set and keeps exactly those |
| ServiceRegistry.ServiceModule.FindByName | src/service/ServiceModule.cpp:173-193 | a name finds the agent registered under it and nothing else |
| ServiceRegistry.ServiceModule.GetAllServiceMap | src/service/ServiceModule.cpp:388-400 | the name index turned around is the service map |
| ServiceRegistry.ServiceModule.Initial | src/service/ServiceModule.cpp:19-91 | the first initialized service of each name is registered under one more than the number initialized before it, and no other; as many ids leak as initialized core services repeat a name |
| ServiceRegistry.ServiceModule.Start | src/service/ServiceModule.cpp:93-104 | core services that ask for updates while starting get none |
| ServiceRegistry.ServiceModule.Stop | src/service/ServiceModule.cpp:106-128 | maps are cleared while ids stay outstanding and tickers stay |
| GcGraph.Reach | back/reflect/GcTable.cpp:14-22 | the reachable set includes its start and its own children |
| GcGraph.ReachIsLeast | back/reflect/GcTable.cpp:14-22 | and is included in every set that does |
| GcGraph.PathStaysReachable | back/reflect/GcTable.cpp:14-22 | the end of a path from the start is reachable |
| GcGraph.ReachableHasPath | back/reflect/GcTable.cpp:14-22 | every reachable object ends a path from the start |
| GcGraph.MarkingComposes | back/reflect/GcTable.cpp:34-37 | marking from one set and then another is marking from both, whatever was marked before |
| GcGraph.SurvivorsAreTheReachable | back/reflect/GcTable.cpp:24-40 | from a clean heap exactly the registered reachable objects survive |
| GcGraph.NoChildIsFreed | back/reflect/GcTable.cpp:24-32 | no survivor's registered child is freed |
| GcGraph.LeavesNoMarkIff | back/reflect/GcTable.cpp:29-31 | a collection leaves no mark exactly when every reachable object is registered |
| GcGraph.SecondCollectionIsIdle | back/reflect/GcTable.cpp:34-40 | then a second collection changes nothing |
| GcGraph.SecondCollectionFreesNothingIff | back/reflect/GcTable.cpp:14-40 | in general it frees nothing exactly when survivors are reachable without passing an unregistered object |
| GcGraph.UnregisteredRootLosesItsChild | back/reflect/GcTable.cpp:14-40 | an unregistered root loses its registered child in the second collection |
| GarbageCollection.GcTable.Mark | back/reflect/GcTable.cpp:10-22 | on any heap, cyclic or with stale marks, recursion ends and marks what is reachable through unmarked objects: marks only grow, the node is marked, and a newly marked object has all its non-null children marked |
| GarbageCollection.MarkedIsChained | back/reflect/GcTable.cpp:10-22 | each newly marked object ends a chain of children from the node, of objects that were not marked |
| GarbageCollection.GcTable.Sweep | back/reflect/GcTable.cpp:24-32 | keeps exactly the marked objects in their order and clears their marks |
| GarbageCollection.GcTable.Collect | back/reflect/GcTable.cpp:34-40 | the collection of the graph; when nothing was marked, a registered object survives exactly if a chain of children leads to it from a root, so registered roots and the registered children of survivors survive; order is kept and survivors are unmarked |
| GarbageCollection.UObject.AttachTo | back/reflect/Object.cpp:98-105 | moves one child from its parent to another and keeps parents and children consistent |
| GarbageCollection.UObject.Adopt | back/reflect/Object.h:90-100 | a new sub-object is linked both ways |
| GatewayTheorems.OneInstancePerId | src/gateway/Gateway.cpp:71-165 | over every run at most one instance per id; its holder is the agent the player map names; cache and player map are disjoint |
| GatewayTheorems.InstancesAreConserved | src/gateway/Gateway.cpp:103-164 | every instance created is with one agent, under one cache id, or destroyed, and only one of these |
| GatewayTheorems.CleanUpRemovesOnlyItself | src/gateway/PlayerAgent.cpp:416-435 | a clean-up leaves other agents and their names in the player map alone, and that of a displaced session changes no such name and no cache entry; of the waiting agents it forgets the one under its own key |
| GatewayTheorems.CleanUpForgetsIff | src/gateway/PlayerAgent.cpp:434 | another waiting agent is forgotten by a clean-up exactly when it has the cleaned agent's key and the gateway runs |
| GatewayTheorems.CachingNeverOverwrites | src/gateway/Gateway.cpp:71-89 | a cached player never replaces another |
| GatewayTheorems.CleanUpDisposes | src/gateway/PlayerAgent.cpp:416-435 | a clean-up caches a cachable player while the gateway runs and its id is positive, leaves it with its agent otherwise, and destroys one that is not cachable |
| GatewayTheorems.LoggedOutIsNotCached | src/gateway/PlayerAgent.cpp:366-435 | cleaning a session up after its logout destroys its player and caches nothing |
| GatewayTheorems.ClosedIsNotSetUp | src/gateway/PlayerAgent.cpp:123-125 | a waiting session whose socket closes gets no player from its login, and the player map then names an agent without one |
| GatewayTheorems.LoginHandsOver | src/gateway/Gateway.cpp:99-165 | a login ends with the displaced session's instance, else the cached one, else a new one, at the new agent only |
| GatewayTheorems.LoginDisplaces | src/gateway/Gateway.cpp:99-165 | a login that displaces a session leaves it without a player, not to be cached, and disconnected if the handler has no answer; the new session has the player if its socket is open, and no third session changes |
| GatewayTheorems.LoginAdmits | src/gateway/Gateway.cpp:118-164 | a login under an id nobody is logged in with gives the waiting agent the cached player or a new one if its socket is open, and touches no other agent |
| GatewayTheorems.LoginWithoutWaiter | src/gateway/Gateway.cpp:99-126 | a login without a waiting agent at most takes the other session's player and name away, and otherwise changes nothing |
| GatewayTheorems.LosesAPlayerIff | src/gateway/Gateway.cpp:111-164 | an instance is destroyed unsaved exactly when a session that is not waiting logs in under another's id, or a closed one under an id without an instance; which instance it is |
| GatewayTheorems.StaleIff | src/gateway/PlayerAgent.cpp:123-125 | over every run, while the gateway runs a name has no player exactly when some login of the run set up an agent for it whose socket had closed |
| GatewayTheorems.CrashesIff | src/gateway/PlayerAgent.cpp:154-157 | a null player is followed exactly by a login under another key and an id that had such a set-up |
| GatewayTheorems.FilledIff | src/gateway/Gateway.cpp:111-164 | a step from a state in which every name has its player keeps it so exactly unless it is such a set-up |
| GatewayTheorems.StaleNameStays | src/gateway/PlayerAgent.cpp:154-157 | such a name survives every step until the login that follows the null player |
| GatewayTheorems.AsWrittenNobodyPlays | src/gateway/PlayerAgent.cpp:127-128 | with the guards as written no agent ever holds a player and the second session under an id follows a null one |
| GatewayTheorems.AsWrittenLoginLoses | src/gateway/PlayerAgent.cpp:127-128 | with the guards as written every first login under an id creates a player and destroys it unsaved, and changes nothing else but the two maps |
| GatewayTheorems.SharedKeyIsForgotten | src/gateway/Gateway.cpp:264-272 | a run in which two connections share a key and cleaning the first up makes the gateway forget the second |
| GatewayClass.Gateway.Connect | src/gateway/Gateway.cpp:258-277 | a connection with an empty or taken key is dropped, else its agent waits under its key, cachable, open and without a player |
| GatewayClass.Gateway.OnPlayerLogin | src/gateway/Gateway.cpp:99-165 | the login step of the runs, under either reading of the guards; as meant, on the agents' own fields, what the displaced session, the new one and all others are left with |
| GatewayClass.Gateway.Notify | src/gateway/PlayerAgent.cpp:266-285 | the displaced session is no longer cachable and keeps its socket unless the handler has no answer; as written it throws and nothing changes |
| GatewayClass.Gateway.RecyclePlayer | src/gateway/Gateway.cpp:71-89 | caches the player under its id and forgets the name, unless stopped or the id is not positive, in which case the agent keeps it |
| GatewayClass.Gateway.CleanUp | src/gateway/PlayerAgent.cpp:416-435 | the clean-up step of the runs: where the player goes, which name and which waiting agent are forgotten |
| GatewayClass.Gateway.CollectCachedPlayer | src/gateway/Gateway.cpp:307-318 | one pass keeps entries that are not older than keep_alive, all of them or as many as the limit, and is a step of the runs |
| GatewayClass.Gateway.Stop | src/gateway/Gateway.cpp:218-226 | only the state changes |
| GatewayClass.Gateway.FindPlayer | src/gateway/Gateway.cpp:30-37 | the agent named under the id, while running |
| GatewayClass.Gateway.GetPlayerList | src/gateway/Gateway.cpp:48-61 | the logged in agents of a list in its order and multiplicity |
| GatewayClass.ListedJoins | src/gateway/Gateway.cpp:48-61 | a list is served entry by entry: the agent logged in under the id, or nobody |
| GatewayClass.PlayerAgent.SetUpPlayer | src/gateway/PlayerAgent.cpp:123-132 | which player is taken and which is handed back, under either guard |
| GatewayClass.PlayerAgent.ExtractPlayer | src/gateway/PlayerAgent.cpp:154-157 | hands the player over and keeps none |
| GatewayClass.PlayerAgent.OnRepeated | src/gateway/PlayerAgent.cpp:266-285 | as meant the session becomes uncachable and may be closed; as written it throws first |
| CachePurge.PurgeMeets | src/gateway/Gateway.cpp:308-318 | survivors are not older than keep_alive, and they are all such entries, or as many as a limit that these exceed; exactly the unexpired survive if and only if there is no overflow |
| CachePurge.EntriesAreGoneInTime | src/gateway/Gateway.cpp:296-319 | over every run of the gateway with passes scheduled at fixed gaps, an entry put in at t is gone from the first pass scheduled after t + keep_alive |
| PacketFrames.HeaderRoundTrip | src/internal/PacketCodec.cpp:28-38 | a header with signed source and target comes back from its 24 big-endian bytes |
| PacketFrames.BytesRoundTrip | src/internal/PacketCodec.cpp:93-103 | every 24 bytes are the bytes of one header |
| PacketFrames.BytesAtPlaces | src/internal/PacketCodec.cpp:28-38 | magic, id, source, target and length stand in this order, each most significant byte first, negative words as their two's complement |
| PacketFrames.FieldsAtPlaces | src/internal/PacketCodec.cpp:93-103 | each field is read as the sum of its bytes weighted by falling powers of 256, with words from 2^31 on negative |
| PacketFrames.ByteAtPlace | src/internal/PacketCodec.cpp:28-38 | the byte at place i of k counts the 256^(k - 1 - i) |
| PacketFrames.ComesBackIff | src/internal/PacketCodec.cpp:24-126 | a packet within the limit comes back whatever follows it exactly when its header announces its payload |
| PacketFrames.StreamRoundTrip | src/internal/PacketCodec.cpp:24-126 | any list of such packets decodes to itself and uses up exactly its bytes |
| PacketFrames.StreamsAreUnambiguous | src/internal/PacketCodec.cpp:24-126 | no two lists of one length share a stream |
| PacketFrames.ReservedBufferIff | src/internal/PacketCodec.cpp:112-123 | with the buffer reserved as written a frame is returned right exactly when the old payload had the new length |
| PacketFrames.SetDataIsHonestIff | src/base/ByteArray.cpp:53-56 | setting data makes an honest packet exactly when the buffer is resized or had the right size |
| PacketCodecs.PacketCodec.EncodeT | src/internal/PacketCodec.cpp:24-77 | writes the fields in network order at their places and then the payload, nothing over the limit, and reports success exactly for empty lengths, and for payloads within the limit that are not empty |
| PacketCodecs.PacketCodec.DecodeT | src/internal/PacketCodec.cpp:79-126 | succeeds exactly when the decoding function does, with its packet and its rest: fields from their places in network order, and with a resized buffer exactly the announced bytes as payload |
| PacketCodecs.PacketObject.SetData | src/internal/Packet.cpp:81-85 | announces the data's length and fills the payload; what the payload becomes depends on the reading |
| PacketCodecs.PacketObject.FromString | src/base/ByteArray.cpp:53-56 | the copying loop against the closed form: a reserved array keeps its size, its bytes are overwritten from the front and what does not fit is not part of it |
| PacketCodecs.PacketObject.CopyFrom | src/internal/Packet.cpp:37-49 | refused for null, itself and anything but a packet; else header and payload become the other's |
| EventListeners.PurgesAreInvisible | src/event/EventModule.cpp:174-202 | deleting every purge from any history changes no later dispatch |
| EventListeners.ListenIsSeen | src/event/EventModule.cpp:66-79 | an accepted registration is reached under its latest agent while that lives and changes nothing else; a refused one changes nothing |
| EventListeners.RemovalIsSeen | src/event/EventModule.cpp:81-118 | a removal silences exactly the id it names, for one event or for all; a refused one changes nothing |
| EventListeners.ExpiryIsSeen | src/event/EventModule.cpp:174-202 | the end of an agent silences exactly what it was registered for, and a purge keeps exactly the entries that are reached |
| EventListeners.StaysSilent | src/event/EventModule.cpp:81-118 | an unreached listener is never reached again without a new registration |
| EventIndex.ListenerIndex.Listen | src/event/EventModule.cpp:73-78 | the relation gains or replaces one entry and a purge is requested |
| EventIndex.ListenerIndex.RemoveByEvent | src/event/EventModule.cpp:88-100 | the relation loses one entry; an unknown event requests no purge |
| EventIndex.ListenerIndex.RemoveListener | src/event/EventModule.cpp:110-117 | the relation loses every entry of the id |
| EventIndex.ListenerIndex.Purge | src/event/EventModule.cpp:186-197 | the relation keeps exactly its unexpired entries |
| EventIndex.ListenerIndex.Dispatch | src/event/EventModule.cpp:40-49 | each unexpired entry of the nested map under the event is reached exactly once and no other |
| EventIndex.EventModule.Dispatch | src/event/EventModule.cpp:33-64 | reaches both groups, only while running and for valid events |
| EventIndex.EventModule.ServiceListenEvent | src/event/EventModule.cpp:66-79 | registers the agent under event and id; refused before initialization and for negative ids or events |
| EventIndex.EventModule.RemoveServiceListenerByEvent | src/event/EventModule.cpp:81-101 | one entry goes; also refused while the server terminates |
| EventIndex.EventModule.RemoveServiceListener | src/event/EventModule.cpp:103-118 | every entry of the id goes and no other; also refused while the server terminates |
| EventIndex.EventModule.PlayerListenEvent | src/event/EventModule.cpp:120-133 | as for services but id 0 is refused too |
| EventIndex.EventModule.RemovePlayerListenerByEvent | src/event/EventModule.cpp:135-155 | as for services but id 0 is refused too |
| EventIndex.EventModule.RemovePlayerListener | src/event/EventModule.cpp:157-172 | as for services but id 0 is refused too |
| WeightedDraw.RandomDraw | src/Utils.cpp:191-215 | returns the key that the number hits, or -1 |
| WeightedDraw.DrawsAreFairIff | src/Utils.cpp:191-215 | below a positive total each key is drawn as often as its weight says exactly when no weight is negative |
| WeightedDraw.OnlyTheTotalMisses | src/Utils.cpp:203-214 | of the numbers the distribution allows only the total itself hits nothing |
| Strings.SplitString | src/Utils.cpp:92-102 | the reading loop computes the split |
| Strings.SplitOfJoinIff | src/Utils.cpp:92-102 | splitting a join of delimiter-free parts gives them back exactly when the last is not empty |
| Strings.JoinOfSplit | src/Utils.cpp:92-102 | joining a split gives the string back but for one final delimiter |
| Strings.PartsAreFree | src/Utils.cpp:92-102 | no part contains the delimiter |
| Factories.ServiceFactory.LoadService | src/internal/ServiceFactory.cpp:12-72 | a name leads to the last library file of that name with both symbols, and a name without such a file leads nowhere |
| Factories.NameOfSays | src/internal/ServiceFactory.cpp:19-22 | one "lib" in front is dropped, and a stem without it is the name itself |
| Factories.ServiceFactory.CreateInstance | src/internal/ServiceFactory.cpp:74-99 | calls the creator that the core or the extension map has under the second of exactly two parts, else none |
| Factories.ServiceFactory.DestroyInstance | src/internal/ServiceFactory.cpp:101-131 | calls the destroyer that the core or the extension map has under the second of exactly two parts, else deletes |
| Factories.ServiceFactory.UseService | src/factory/ServiceHandle.cpp:80-91 | a service is destroyed by the library that made it |
| Factories.PathLeadsToIff | src/internal/ServiceFactory.cpp:74-98 | "core." or "extend." and a name lead to x exactly when the name is x, dot-free and not empty, or x and one dot |

## Left out

- RecyclerSizing.SequentialRunIsBounded: every size along the run is assumed to fit `size_t`, as memory does.
- RecyclerSizing.DefaultShrinkNum: the `float` arithmetic is modelled over `real`, which agrees below 2^22 nodes; rounding beyond is not modelled.
- RecyclerTheorems.NoFault: memory is sequentially consistent; the relaxed and acquire-release orders of the source are not modelled.
- RecyclerTheorems.NothingLeaks: the pool's destructor is one step, enabled while no thread is inside a pool method; its race with a release at `src/base/Recycler.h:332-334` is not modelled.
- RecyclerTheorems.OneShrinkAtATime: changes of the settings while the pool runs are not part of the runs.
- RecyclerTheorems.NodesAreConserved: like every theorem about the pool it reads `src/base/Recycler.cpp:203` as reserving room; `GrowthReadings.GrowthIsFollowedIff` is about the text as written.
- RecyclerTheorems.GrowthLosesIff: the conversion of the usage to `float` at `src/base/Recycler.cpp:197` is taken as exact, which it is below 2^24.
- RecyclerClass.Recycler.Recycle: the inner lock at `src/base/Recycler.cpp:342`, taken by a thread that already holds the mutex, is treated as absent.
- RecyclerClass.Recycler.Acquire: nodes, handles and threads are numbers, and element hooks (OnCreate, Initial, Clear) are outside the model; nothing is said about the payload of an acquired element.
- TimerSteps.DuplicateIsNeverMet: what a timer is set to, and its coroutine, are not part of the runs; the class has them.
- IdOwnership.OneOwnerPerId: `mUsage` is left out of the concurrent system because its clamp can lose updates.
- ServiceTheorems.OneOwnerPerServiceId: an agent is represented by its service name, which is taken to be constant; agents, their channels and their coroutines (`src/service/ServiceAgent.cpp`) would add only easy members.
- ServiceRegistry.ServiceModule.UpdatePass: one pass of the loop; the loop itself, which ends at once if it is scheduled before Start, and its timer are not modelled.
- GarbageCollection.GcTable.Mark: recursion depth is not bounded, so stack exhaustion on long chains is not modelled.
- GarbageCollection.UObject.AttachTo: the source follows the parent pointer without a check, so an object without a parent is excluded.
- GatewayTheorems.OneInstancePerId: operations are atomic; the gateway's locks do not protect an agent's player, so nothing is claimed at lock granularity.
- GatewayTheorems.LosesAPlayerIff: reads the two inverted guards (`src/gateway/PlayerAgent.cpp:127`, `267`) as meant; `GatewayTheorems.AsWrittenNobodyPlays` is about the text as written.
- GatewayClass.Gateway.Connect: the address check and the codec are outside the model.
- PacketCodecs.PacketCodec.EncodeT: transport never fails and there is no TLS; a failed write returns false in the source.
- PacketCodecs.PacketCodec.DecodeT: a failed decoding leaves the packet unspecified.
- WeightedDraw.RandomDraw: sums do not wrap at 32 bits, and the random engine is a parameter.
- EventIndex.ListenerIndex.Purge: the timer that delays it, and its cancellation at Stop, are not modelled.
- Thread pools, sockets, the watchdog, database adapters, configuration, logging, reflection lookup and the bit and calendar helpers are outside the model.
- `src/base/Recycler.cpp:118` initializes the shrink threshold with the expand constant 0.75; the model follows the code, not the unused constant 0.3.
