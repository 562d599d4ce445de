# Pitaya: a verified model of its stateful core

Dafny model of the parts of the Pitaya game-server framework whose correctness rests on state that
several parties change: the cluster cache of service discovery, the client's connections and pending
requests, configuration reload, the two group services, the walk over protobuf imports, the rate
limiter, the router, agent shutdown, and the route and key syntax. `dafny verify dfyconfig.toml`
checks everything.

## How it is laid out

| files | what they cover |
|---|---|
| `Text`, `Route`, `EtcdKeys` | splitting and joining, route syntax, registration keys |
| `Registry`, `Discovery` | what a snapshot or watch event does to a set of servers, and what listeners hear; the cache object with its three indexes |
| `Convergence`, `ConvergenceExact`, `Retention` | whole runs against an etcd history; exactly when all of them converge; what is cached when registrations are invalid |
| `Router` | default routing over that cache |
| `PendingTable`, `PendingEffects`, `Generation` | the in-flight table as a step machine; what each step achieves; the object whose methods are those steps |
| `ClientLifecycle`, `ProtoLifecycle`, `ClientObjects` | connect attempts and connection generations of both clients as step machines; the objects whose locked sections are those steps |
| `Runs`, `ClientHistory`, `ProtoHistory` | why a call ends as it does, told by the steps of the run |
| `ConfigValues`, `ConfigApply`, `ConfigStore` | configuration objects on a heap; the merge as a function on unfolded trees; the merge in place |
| `ConfigSeed`, `ConfigPaths`, `ConfigSeeder`, `ConfigSkeleton` | the decode skeleton as a function on a possibly cyclic object graph; where it has storage, by paths through the live object; the seeding object that allocates it; why it fits |
| `ConfigReload` | any number of reloads of one live object |
| `Groups`, `MemoryGroups`, `EtcdGroups`, `EtcdGroupService` | the group map both services implement; the list-based service; keys and transactions; the etcd service and all interleavings of its clients |
| `Imports`, `RateLimiter`, `AgentClose` | the import walk; the limiter; closing an agent |

Code that runs concurrently is a machine: a state, steps at the granularity of a lock or channel
operation, a predicate `Enabled`, a function `Perform`, and a theorem over every run. Where the source
has an object, the methods of a class are proved to perform exactly those steps, or to have the effect
of a specification function whose properties are proved as lemmas. Members without a row of their own
(helpers, and methods that only set a field or perform one step) carry contracts that the listed ones use.

Main results:

- In every run of snapshots, stale snapshots, watch batches and stream restarts, the cache is exactly
  what the store at the applied revision describes, and the applied revision never decreases
  (`Convergence.RunsConverge`). This holds of all runs over a history if and only if no two visible keys
  ever register one server ID at the same time (`ConvergenceExact.ConvergesExactly`): a server that
  changes type by registering its new key first is lost. With invalid registrations in the history, the
  cache holds the last valid server of each ID in the states it has seen (`Retention.RunsRemember`).
- Of every other server a listener hears a legal life that ends at the cached one; of the server that
  runs the cache it hears each departure and nothing else (`Registry.AnnouncedKeepsSelf`).
- Tokens in the slot channel are the pending requests plus the senders about to register, in every
  interleaving, so no release can block and at most 30 requests are pending; a delivered response used
  up a registration of its own, and a registration leaves the table once (`PendingTable.RunsKeepInvariant`).
  On an open connection no response is lost (`PendingTable.ResponsesArrive`).
- A ConnectTo that a Disconnect has found active returns an error and leaves no generation of its own
  behind (`ProtoLifecycle.SeenConnectFails`); a cancelled attempt is never published
  (`ClientLifecycle.CancelledNeverPublished`), and a published one had a good dial and handshake
  (`ClientHistory.GenerationsEarned`); waits between calls never form a cycle
  (`ProtoLifecycle.NobodyWaitsForAWaiter`).
- Reload makes every configuration-visible position equal to the decoded one, keeps excluded fields
  along merged paths and is idempotent, and the in-place algorithm computes this merge
  (`ConfigApply.MergeTakesConfig`, `ConfigStore.LiveConfig.ApplyConfigValue`). Over any sequence of
  reloads the object has the last configuration and its first runtime state (`ConfigReload.ReloadAll`).
  Seeding ends on every finite graph, cyclic or not, with a blank skeleton of fresh storage
  (`ConfigSeeder.Seeder.Seed`), allocated exactly where the decoder needs it (`ConfigPaths.SkeletonAllocatedExactly`).
- Both group services implement one map of UID sets. For etcd this holds for all interleavings exactly
  when no two names in use clash: `n` clashes with `m` when `n/` starts with `m/uids/`. The property is
  false for arbitrary names, since group `a/uids/b` is stored under the key of member `b` of group `a`
  (`EtcdGroupService.RefinesExactly`, `EtcdGroupService.SharedKey`). Names without slashes never clash.
- The import walk collects everything reachable, whatever is asked for, if and only if the map it fills
  was closed under imports before (`Imports.CompleteExactly`).
- No agent channel is closed twice and no close callback runs twice, whatever statuses are written
  (`AgentClose.RunsCloseOnce`). That a Close that came back left everything shut holds if and only if
  nobody else writes Closed (`AgentClose.ShutExactly`). No caller in the repository does: the handler
  writes Handshake and Working (service/handler.go, lines 254 and 264). The input that breaks it is an
  outside user of the exported SetStatus.

Two remarks on code and comments that differ. The limiter is described as a leaky bucket; it is a
sliding window (`RateLimiter.FullExactly`), and the model follows the code. `GroupAddMember` of the etcd
service reports an existing member also when the group was deleted between its read and its transaction.

## Model

| member | source | states |
|---|---|---|
| `Route.PrintOfDecode` | route/route.go:65-81 | every accepted route has non-blank dot-free fields and prints back to the text it was decoded from |
| `Route.DecodeOfPrint` | route/route.go:52-62 | every route with non-blank dot-free fields, with or without a server type, decodes from its printed form to itself |
| `Route.AcceptedExactly` | route/route.go:52-81 | decoding yields a route if and only if the route is well formed and the text is its printed form |
| `EtcdKeys.KeyRoundTrip` | cluster/etcd_service_discovery.go:508-516 | parsing a key yields a type and an ID if and only if both are non-empty and slash-free and the key is what getKey prints for them |
| `Registry.AnnouncedKeepsInStep` | cluster/etcd_service_discovery.go:611-617 | announcing truthful changes keeps a listener in step: for every ID but its own the callbacks spell (Add Modify* Remove)*, with each Modify naming the server last announced, and end at the cached server |
| `Registry.AnnouncedKeepsSelf` | cluster/etcd_service_discovery.go:611-617 | of self a listener is never told that it appeared or changed, and the removals it hears are, in order, exactly the servers cached under self's ID each time it left the cache |
| `Registry.DelsAreDepartures` | cluster/etcd_service_discovery.go:644-651 | truthful changes remove exactly what leaves the cache as it goes through them |
| `Registry.MirrorIsCache` | cluster/etcd_service_discovery.go:299-312 | a listener that folds its callbacks into a map of its own always holds exactly the cached servers other than self |
| `Registry.SnapshotIsIdempotent` | cluster/etcd_service_discovery.go:561-583 | the same snapshot content applied again yields the same servers, whatever is invalid in it and whatever was cached |
| `Registry.ReplayIsTruthful` | cluster/etcd_service_discovery.go:663-688 | the changes a watch response makes are truthful one after the other and lead from the old servers to the new ones |
| `Discovery.EtcdServiceDiscovery.constructor` | cluster/etcd_service_discovery.go:101-112 | an empty cache satisfies the index and listener invariants |
| `Discovery.EtcdServiceDiscovery.StoreServerLocked` | cluster/etcd_service_discovery.go:619-642 | stores the server, keeps the three indexes in agreement even when the type changes, and reports an Add or a Modify with the server it replaced |
| `Discovery.EtcdServiceDiscovery.FileByType` | cluster/etcd_service_discovery.go:630-634 | a server is filed under a type exactly when it is cached by ID with that type |
| `Discovery.EtcdServiceDiscovery.AddToRing` | cluster/etcd_service_discovery.go:635-640 | the ring of a type holds exactly the cached IDs of that type other than self |
| `Discovery.EtcdServiceDiscovery.RemoveServerLocked` | cluster/etcd_service_discovery.go:644-651 | removes the server from all three indexes, which still agree |
| `Discovery.EtcdServiceDiscovery.NotifyChanges` | cluster/etcd_service_discovery.go:611-617 | listeners hear, in order, every removal and every other change that is not about self |
| `Discovery.EtcdServiceDiscovery.Announce` | cluster/etcd_service_discovery.go:611-617 | after announcing, listeners are in step with the cache for every other ID, and of self have heard of each departure and of nothing else |
| `Discovery.EtcdServiceDiscovery.CollectServers` | cluster/etcd_service_discovery.go:561-583 | the servers a snapshot stands for: visible valid registrations, and the cached server where a registration is invalid; only self may be of a blacklisted type |
| `Discovery.EtcdServiceDiscovery.StoreChanged` | cluster/etcd_service_discovery.go:586-591 | stores exactly the new and changed servers, one change per ID, each a real difference |
| `Discovery.EtcdServiceDiscovery.DropMissing` | cluster/etcd_service_discovery.go:592-597 | drops exactly the servers the snapshot no longer lists |
| `Discovery.EtcdServiceDiscovery.Reconcile` | cluster/etcd_service_discovery.go:584-597 | whatever was cached, the cache becomes the given servers, by changes that are the difference, each true when it is made |
| `Discovery.EtcdServiceDiscovery.SyncServersLocked` | cluster/etcd_service_discovery.go:548-603 | a failed read or a stale snapshot changes nothing; otherwise the cache becomes the snapshot's servers at its revision, listeners hear exactly the difference, and all invariants hold |
| `Discovery.EtcdServiceDiscovery.ApplyEvent` | cluster/etcd_service_discovery.go:671-687 | an event with a key that does not parse or is hidden, or a value that holds no server of the key's ID and type, changes nothing at all; a valid put stores its server and reports what it replaced; a delete removes and reports what was cached |
| `Discovery.EtcdServiceDiscovery.ReplayEvents` | cluster/etcd_service_discovery.go:659-688 | the events above the boundary are replayed in order and the new revision is the highest seen |
| `Discovery.EtcdServiceDiscovery.ApplyWatchResponse` | cluster/etcd_service_discovery.go:653-693 | after cancellation nothing changes; otherwise cache, callbacks and applied revision are those of the replay, and all invariants hold; events that are ignored leave cache, indexes and callbacks as they were |
| `Discovery.EtcdServiceDiscovery.GetServersByType` | cluster/etcd_service_discovery.go:319-333 | exactly the cached servers of the type, or an error exactly when there are none |
| `Discovery.EtcdServiceDiscovery.GetServerTypes` | cluster/etcd_service_discovery.go:382-393 | exactly the inhabited types, each with one of its cached servers |
| `Discovery.EtcdServiceDiscovery.GetConsistentHashNode` | cluster/etcd_service_discovery.go:335-347 | the node the hash picks for the key among the cached servers of the type other than self, or an error exactly when there are none |
| `Discovery.RepeatedSnapshotIsSilent` | cluster/etcd_service_discovery.go:584-601 | a snapshot with unchanged content announces nothing |
| `Convergence.RunsConverge` | cluster/etcd_service_discovery.go:745-778 | after every step of every run the cache is the visible part of the store at the applied revision, which never decreases |
| `Retention.RunsRemember` | cluster/etcd_service_discovery.go:548-693 | over histories with invalid registrations too, in every run: a server is cached if and only if it is the last valid one of its ID in the states of the store the run has seen, with nothing but unreadable registrations of that ID seen since |
| `Retention.SnapshotSees` | cluster/etcd_service_discovery.go:561-583 | a snapshot drops what is gone, takes what is registered, and keeps what was cached where a registration is unreadable |
| `Retention.EventSees` | cluster/etcd_service_discovery.go:669-687 | an event does the same to the cache for the state of the store after it |
| `Retention.VisibleExactly` | cluster/etcd_service_discovery.go:563-571 | the keys looked at are exactly those printed from a usable ID and type that is not blacklisted, or from self's ID |
| `Convergence.StepKeepsCoherence` | cluster/etcd_service_discovery.go:548-603 | a resynchronisation, a restart with its snapshot, a watch batch and a broken stream each keep the cache a mirror of the store |
| `Convergence.BatchReachesStore` | cluster/etcd_service_discovery.go:653-693 | a batch that overlaps what a snapshot already applied still ends at the store after its last event |
| `Convergence.EventFollowsStore` | cluster/etcd_service_discovery.go:669-687 | what an event does to a mirror of the store, it does to the store |
| `Convergence.SnapshotMirrors` | cluster/etcd_service_discovery.go:561-583 | a snapshot in any key order mirrors the store it lists, whatever was cached before |
| `Convergence.MirrorIsUnique` | cluster/etcd_service_discovery.go:548-603 | the store determines the cache completely |
| `ConvergenceExact.ConvergesExactly` | cluster/etcd_service_discovery.go:548-693 | for every history as etcd makes it, with valid registrations, all runs keep the cache a mirror of the store if and only if no two visible keys ever register one ID at the same time, not even inside a revision |
| `ConvergenceExact.MirroredIsUnique` | cluster/etcd_service_discovery.go:561-583 | a store whose visible keys share an ID has no mirror at all |
| `ConvergenceExact.BoundaryDiverges` | cluster/etcd_service_discovery.go:745-758 | when IDs are shared at the end of a revision, a run of one snapshot is no mirror |
| `ConvergenceExact.InsideDiverges` | cluster/etcd_service_discovery.go:664-687 | when IDs are shared only inside a revision, a snapshot before it and the batch with it end without a server that is live |
| `Convergence.SharedIdLosesServer` | cluster/etcd_service_discovery.go:683-686 | the witness: for every server that registers under a second type before its first key is deleted, the watcher ends without it although it is live |
| `Router.Router.DefaultRoute` | router/router.go:75-130 | a server of the list or an error, never both and never neither; frontends and sticky backends go to the server the session is bound to; a plain backend goes to the node the hash picks for the session's user, else for its place on its frontend, and always yields a server if the cache has not moved |
| `Router.Router.Route` | router/router.go:139-170 | no discovery and no servers are errors; the default route returns a cached server of the type, always one when there is no session or the backend is plain, and there the one the session hashes to; a custom function gets exactly the cached servers |
| `PendingTable.StepKeeps` | client/client.go:833-852 | each step keeps slots = pending + registrants, the empty table after close, earned timeouts, distinct deliveries and, on an open connection, every response held or delivered; no registration leaves twice |
| `PendingTable.RunsKeepInvariant` | client/client.go:332-357 | the same in every state of every interleaving, and a registration that has left never changes again |
| `PendingTable.ClosedStaysEmpty` | client/client.go:545-554 | once a generation is closed its table stays empty through every later step |
| `PendingEffects.RunsAchieve` | client/client.go:332-443 | in every interleaving each step does what it is for: a registration is pending with its route, a stamp is on the request, an answered, timed-out, unsent or disconnected request is out of the table for that cause with its token back, the held response is the one that came, and no other request is touched |
| `PendingEffects.SweepAchieves` | client/client.go:344-357 | after a sweep no stamped request past the timeout is pending, each got its timeout response, and all others stay |
| `PendingEffects.TakeAchieves` | client/client.go:332-342 | taking an ID takes its request with one token and leaves every other request |
| `PendingTable.ResponsesArrive` | client/client.go:359-443 | on an open connection every registration that was answered or timed out has its response on the way or delivered, exactly one of the two and exactly once |
| `PendingTable.ExpireKeeps` | client/client.go:384-401 | the reaper times out only stamped requests past their timeout, and every one of them leaves with the timeout response of its own ID and route |
| `PendingTable.AnswerKeeps` | client/client.go:421-430 | a response takes one registration with its ID, and never reaches the consumer without a route unless the request had none |
| `Generation.ConnectionGeneration.constructor` | client/client.go:270-287 | a new generation is the empty table |
| `Generation.ConnectionGeneration.AcquireSlot` | client/client.go:833-838 | takes one token below the limit of 30, or reports a closed connection |
| `Generation.ConnectionGeneration.FinishRegister` | client/client.go:840-852 | the request is pending with its route and unstamped, or the token is back when the connection is closed or the ID is in use; no other request is touched |
| `Generation.ConnectionGeneration.StampSent` | client/client.go:887-891 | a pending request carries the time, and no other request is touched |
| `Generation.ConnectionGeneration.TakePending` | client/client.go:332-342 | takes the entry with its token, which is there to take, or changes nothing |
| `Generation.ConnectionGeneration.TakeResponse` | client/client.go:422-430 | a response to a pending request takes it, with its token, and is held as it came but for an empty route; one without a pending request is ignored |
| `Generation.ConnectionGeneration.TakeAfterFailedWrite` | client/client.go:895-897 | after a failed write the ID is not pending, its registration has left for that cause, its token is back, and nothing is delivered for it |
| `Generation.ConnectionGeneration.TakeExpiredPending` | client/client.go:344-357 | returns and removes exactly the stamped requests past the timeout, with one token each and a timeout response each |
| `Generation.ConnectionGeneration.CloseTable` | client/client.go:547-554 | marks the generation closed and empties the table, one token per entry, never blocking |
| `Generation.ConnectionGeneration.CloseChannel` | client/client.go:556-556 | when the signal is given the table is empty and every token in the channel belongs to a sender about to be refused |
| `Generation.ConnectionGeneration.DeliverResponse` | client/client.go:359-366 | the consumer gets the response, or a closed connection swallows it |
| `ClientLifecycle.StepKeeps` | client/client.go:649-762 | each step keeps Connected = a current generation, Connecting = an attempt on record, one open attempt and one open generation at most |
| `ClientLifecycle.AttemptFails` | client/client.go:751-762 | an attempt that fails is the one on record, and afterwards there is none |
| `ClientLifecycle.RunsKeepInvariant` | client/client.go:669-689 | the same in every reachable state |
| `ClientLifecycle.ClosedGenerationsFiredOnce` | client/client.go:541-572 | every generation but the current one is closed, and each closed one fired the callback exactly once |
| `ClientLifecycle.ReleaseClearsItself` | client/client.go:559-566 | completing a close clears that generation and leaves every other one untouched |
| `ClientLifecycle.CancelledNeverPublished` | client/client.go:524-539 | an attempt that Disconnect found connecting is never published, in any later state |
| `ClientHistory.GenerationsEarned` | client/client.go:697-746 | every generation was published once, by its owner, after a dial and a handshake that went well and with a context that was not done |
| `ClientHistory.FailedNeverPublished` | client/client.go:696-727 | an attempt whose dial or handshake failed is failing or has returned without a generation, and owns none |
| `ClientHistory.GoodIsReady` | client/client.go:717-727 | a good dial and handshake leave an attempt that was not cancelled ready to be published, or published |
| `ClientHistory.PublishDecides` | client/client.go:729-746 | publishing makes the new generation current if and only if the context was not cancelled before |
| `ClientHistory.ContextsExactly` | client/client.go:524-539 | an attempt's context is done exactly when it was cancelled from outside or by a Disconnect that found it connecting |
| `ClientHistory.ConnectDecides` | client/client.go:669-689 | a connect starts an attempt exactly when there is neither an attempt nor a generation |
| `ClientHistory.FailDecides` | client/client.go:751-762 | a failing attempt returns without a generation and leaves the client idle |
| `ClientHistory.StagesExactly` | client/client.go:545-567 | how far a generation's closing has come is how many of its three steps were taken |
| `ClientObjects.Client.constructor` | client/client.go:158-170 | a new client is idle |
| `ClientObjects.Client.BeginConnect` | client/client.go:669-689 | starts an attempt, or tells connected from connecting |
| `ClientObjects.Client.StoreConnection` | client/client.go:702-709 | performs the step after a dial, which in reachable states never finds its attempt replaced |
| `ClientObjects.Client.PublishGeneration` | client/client.go:729-746 | publishes a generation exactly when the attempt's context is not done |
| `ClientObjects.Client.FailConnectAttempt` | client/client.go:751-762 | in reachable states the failing attempt is the one on record, and the client ends idle with no attempt and no generation |
| `ClientObjects.Client.BeginDisconnect` | client/client.go:524-539 | finds the attempt to cancel and wait for, or the generation to close |
| `ClientObjects.Client.ReleaseGeneration` | client/client.go:559-566 | takes the callback exactly when the generation is current, which in reachable states it is |
| `ProtoLifecycle.StepKeeps` | client/protoclient.go:461-507 | each step keeps the invariant that ties every call to its done channel, its inner attempt and its generation |
| `ProtoLifecycle.RunsKeepInvariant` | client/protoclient.go:461-534 | the same in every reachable state, whatever else the embedded client does |
| `ProtoLifecycle.DeferredKeeps` | client/protoclient.go:466-471 | the deferred closure, run on every return, finishes the attempt exactly when the body has not |
| `ProtoLifecycle.DoneClosedOnce` | client/protoclient.go:461-534 | `done` is open while the call is active and closed exactly once after, whether by the body, which sets attemptFinished, or by the deferred closure, which looks at it |
| `ProtoLifecycle.FailedConnectLeavesNothing` | client/protoclient.go:482-507 | when a ConnectTo has returned an error every generation it made is closed and not current |
| `ProtoHistory.FailedBootstrapEnds` | client/protoclient.go:473-484 | a call whose bootstrap failed ends with an error and never enters the embedded client |
| `ProtoHistory.LoadedMeansBooted` | client/protoclient.go:350-361 | a LoadServerInfo that returns well has bootstrapped |
| `ProtoHistory.SuccessExactly` | client/protoclient.go:489-507 | a ConnectTo ends well if and only if it reaches its finish without having been cancelled |
| `ProtoHistory.CancelledExactly` | client/protoclient.go:384-390 | while a call is active its context is done exactly when a Disconnect has found it |
| `ProtoHistory.CancelledEarlyNeverConnects` | client/protoclient.go:485-487 | a call cancelled before it connects never enters the embedded client and ends with an error |
| `ProtoHistory.ReadyExactly` | client/protoclient.go:608-619 | the client is ready exactly when it was loaded or some bootstrap went well without being cancelled |
| `ProtoHistory.RunsDecide` | client/protoclient.go:461-534 | each stop on the way of a call sends it on by what the call finds there: readiness, cancellation, and what connecting returned |
| `ProtoLifecycle.SeenConnectFails` | client/protoclient.go:383-395 | if Disconnect finds a ConnectTo active, that call returns an error and none of its generations is current once it returned |
| `ProtoLifecycle.CallbackNeverWaitsForItself` | client/protoclient.go:367-381 | the goroutine of a ConnectTo closes a generation, and so runs the wrapped callback, only after its own attempt is finished |
| `ProtoLifecycle.NobodyWaitsForAWaiter` | client/protoclient.go:367-395 | whoever a closing call waits for, in closeOnce or in the callback, waits for nobody, so waits never form a cycle |
| `ProtoLifecycle.ActiveNeverWaits` | client/protoclient.go:384-395 | an attempt whose `done` a Disconnect or a callback waits for never waits for another call |
| `ClientObjects.ProtoClient.constructor` | client/protoclient.go:319-331 | a new proto client is idle |
| `ClientObjects.ProtoClient.BeginConnectAttempt` | client/protoclient.go:509-522 | in reachable states an attempt starts exactly when the `done` of every earlier one is closed and no generation is current |
| `ClientObjects.ProtoClient.FinishInBody` | client/protoclient.go:488-505 | a finish in the body leaves no active attempt and `done` closed once, and goes on to disconnect exactly when the call was found cancelled |
| `ClientObjects.ProtoClient.RunDeferred` | client/protoclient.go:466-471 | after the deferred closure `done` is closed once and the call is not active, on every return |
| `ClientObjects.ProtoClient.CommitBootstrap` | client/protoclient.go:608-619 | counts exactly when the attempt was not cancelled |
| `ClientObjects.ProtoClient.BeginDisconnect` | client/protoclient.go:384-390 | the attempt Disconnect will wait for has its `done` still open; if there is none, every `done` is closed |
| `ConfigApply.MergeTakesConfig` | config/viper_config.go:344-377 | for every live tree and acyclic decoded tree of one type, all configuration-visible positions end up as decoded |
| `ConfigApply.MergeKeepsRuntimeState` | config/viper_config.go:344-377 | excluded fields and addresses are kept along every path merged in place |
| `ConfigApply.EqualChangesNothing` | config/viper_config.go:346-377 | a decoded configuration equal to the live one changes nothing, wherever it is stored |
| `ConfigApply.MergeIsIdempotent` | config/viper_config.go:346-377 | merging an equal configuration again changes nothing, be it the same decoded value or one decoded afresh |
| `ConfigStore.LiveConfig.ApplyConfigValue` | config/viper_config.go:346-377 | the in-place algorithm leaves exactly the merge behind, changes no storage but what it enters, and ends by the size of the decoded tree; the decoded value may share storage with the live object where they are the same, as after a first application |
| `ConfigStore.LiveConfig.ApplyPointee` | config/viper_config.go:354-357 | a set pointer keeps its address and its content is merged where it is |
| `ConfigStore.LiveConfig.ApplyElems` | config/viper_config.go:358-363 | array elements are merged one by one without disturbing each other |
| `ConfigStore.LiveConfig.ApplyFields` | config/viper_config.go:370-376 | fields are merged one by one, excluded ones left alone |
| `ConfigReload.SecondMerge` | config/viper_config.go:346-377 | after a first merge the same value may be merged again, which changes nothing |
| `ConfigReload.MergeUnshared` | config/viper_config.go:346-377 | the merge of two objects without shared storage has none either |
| `ConfigReload.ReloadLoader` | config/viper_config.go:241-265 | an unusable loader, a failed decoding and a configuration equal to the live one leave the heap as it was; otherwise the live object carries the decoded configuration |
| `ConfigReload.ReloadsKeepAndTake` | config/viper_config.go:344-377 | after any number of merges the object has the last configuration, and the excluded fields and addresses it had at first along every path all of them entered |
| `ConfigReload.RepeatedDocument` | config/viper_config.go:231-265 | a document that says what the one before it said changes nothing |
| `ConfigReload.ReloadOne` | config/viper_config.go:241-265 | a reload from fresh storage re-establishes what the next one requires |
| `ConfigReload.ReloadAll` | config/viper_config.go:231-265 | over any sequence of reloads, failed ones included, the live object ends as the merge of all decoded documents, with the last configuration and its first runtime state, and nothing else that was there has changed |
| `ConfigSkeleton.SkeletonIsDocument` | config/viper_config.go:252-253 | the skeleton seeded from a loader is a document for it: fresh, readable, unshared, of the live type wherever a merge would enter, and allocated exactly where it has to be |
| `ConfigSeed.GraphIsFinite` | config/viper_config.go:269-272 | every heap without dangling pointers is a finite graph of typed pointers, on which seeding ends |
| `ConfigSeed.ShapeIsBlank` | config/viper_config.go:274-342 | the skeleton has only zero scalars and no map or slice entries, anywhere |
| `ConfigSeed.NeededExactly` | config/viper_config.go:278-342 | `needed` is reported exactly when the skeleton differs from the zero value |
| `ConfigSeed.ShapeKeepsTypes` | config/viper_config.go:274-342 | the skeleton has the type of the live object throughout, with zero values in excluded fields |
| `ConfigPaths.SkeletonAllocatedExactly` | config/viper_config.go:280-342 | everywhere in the skeleton an interface holds a value of the live one's concrete type exactly when the live one holds one, and a pointer is allocated exactly when it can be followed and is squashed, held by an interface, or has such a place below it |
| `ConfigPaths.PathsCarried` | config/viper_config.go:291-299 | along every path to a place that must be seeded, every pointer is allocated and every interface has its concrete type |
| `ConfigPaths.NeededIsLeading` | config/viper_config.go:278-342 | `needed` is reported exactly when some path leads to such a place |
| `ConfigPaths.HeldPointerAllocated` | config/viper_config.go:300-306 | a pointer held by an interface is allocated |
| `ConfigSeeder.Seeder.constructor` | config/viper_config.go:252-253 | seeding can start on any heap without dangling pointers, with nothing allocated and no active pointer |
| `ConfigSeeder.Seeder.Seed` | config/viper_config.go:278-342 | ends on every finite graph, restores `active`, which tells pointers apart by type and address, and yields the skeleton in storage that is all new, unshared and none of the live object's |
| `ConfigSeeder.Seeder.SeedPointer` | config/viper_config.go:280-299 | follows a pointer that is not active and takes it off the active set again; allocates exactly when asked or needed, which by `ConfigPaths.NeededIsLeading` is when a path leads on to a place that must be seeded |
| `ConfigSeeder.Seeder.SeedFields` | config/viper_config.go:307-331 | seeds the fields in order and reports whether one was needed |
| `ConfigSeeder.Seeder.SeedField` | config/viper_config.go:309-329 | excluded fields stay zero; the squash tag decides allocation |
| `ConfigSeeder.Seeder.SeedElems` | config/viper_config.go:332-339 | seeds the elements in order and reports whether one was needed |
| `Groups.ExistsExactly` | groups/memory_group_service.go:52-62 | after any operations, successful or not, a group exists exactly when it was created and not deleted since |
| `Groups.MemberExactly` | groups/memory_group_service.go:108-173 | a UID is a member exactly when it was added while the group existed and nothing has taken it out since |
| `Groups.LengthIsSize` | groups/memory_group_service.go:176-186 | a list without duplicates is as long as the set of its members |
| `MemoryGroups.SwapRemoved` | groups/memory_group_service.go:134-139 | moving the last UID into the removed place leaves no duplicates and exactly the other members |
| `MemoryGroups.Appended` | groups/memory_group_service.go:122-122 | appending a new UID leaves no duplicates and exactly one more member |
| `MemoryGroups.ElementIndex` | groups/group_service.go:24-31 | the first position of the element, or that there is none |
| `MemoryGroups.MemoryGroupService.constructor` | groups/memory_group_service.go:31-37 | the service starts without groups |
| `MemoryGroups.MemoryGroupService.GroupCreate` | groups/memory_group_service.go:52-62 | does to the group map what Create does, with its errors |
| `MemoryGroups.MemoryGroupService.GroupCreateWithTTL` | groups/memory_group_service.go:65-75 | the same, and records deadline and refresh time |
| `MemoryGroups.MemoryGroupService.GroupMembers` | groups/memory_group_service.go:78-91 | the members without duplicates, or that there is no group |
| `MemoryGroups.MemoryGroupService.GroupContainsMember` | groups/memory_group_service.go:94-105 | membership, or that there is no group |
| `MemoryGroups.MemoryGroupService.GroupAddMember` | groups/memory_group_service.go:108-125 | does to the group map what AddMember does, keeps every deadline, and tells its two errors apart |
| `MemoryGroups.MemoryGroupService.GroupRemoveMember` | groups/memory_group_service.go:128-145 | does to the group map what RemoveMember does, keeps every deadline, and tells its two errors apart |
| `MemoryGroups.MemoryGroupService.GroupRemoveAll` | groups/memory_group_service.go:148-159 | empties the group and keeps it and every deadline |
| `MemoryGroups.MemoryGroupService.GroupDelete` | groups/memory_group_service.go:162-173 | removes the group and no other |
| `MemoryGroups.MemoryGroupService.GroupCountMembers` | groups/memory_group_service.go:176-186 | the size of the member set, or that there is no group |
| `MemoryGroups.MemoryGroupService.GroupRenewTTL` | groups/memory_group_service.go:189-203 | moves the refresh time of a group with a TTL and changes nothing else |
| `MemoryGroups.MemoryGroupService.GroupTTLCleanup` | groups/memory_group_service.go:39-49 | one tick removes exactly the groups past their TTL and leaves the others as they were |
| `EtcdGroups.ClashExactly` | groups/etcd_group_service.go:67-73 | two names share a member key if and only if one followed by a slash starts with the other followed by the separator |
| `EtcdGroups.SlashFreeNamesAreSeparate` | groups/etcd_group_service.go:67-73 | names without slashes never clash |
| `EtcdGroups.Apart` | groups/etcd_group_service.go:67-73 | names that do not clash have no key in common, for any UIDs, slashes included |
| `EtcdGroups.CommitRefines` | groups/etcd_group_service.go:88-260 | each transaction succeeds exactly when the operation does on the group map, and then does the same |
| `EtcdGroups.RangeIsMembers` | groups/etcd_group_service.go:132-154 | a prefix request returns exactly the members of that group, and as many keys as there are members |
| `EtcdGroupService.TransactionImplements` | groups/etcd_group_service.go:88-260 | whatever groups a store represents under names that do not clash, each transaction does to them what its operation does, and fails exactly when it fails |
| `EtcdGroupService.EtcdGroupService.CreateGroup` | groups/etcd_group_service.go:88-113 | does Create to whatever groups the store represents, and reports an existing group exactly when there is one |
| `EtcdGroupService.EtcdGroupService.GroupMembers` | groups/etcd_group_service.go:132-154 | the members of the represented group, each once, or that there is no group |
| `EtcdGroupService.EtcdGroupService.GroupContainsMember` | groups/etcd_group_service.go:157-172 | membership in the represented group, or that there is no group |
| `EtcdGroupService.EtcdGroupService.CommitAddMember` | groups/etcd_group_service.go:182-204 | does AddMember to whatever groups the store represents; any failure, also of a group deleted since the read, is reported as an existing member |
| `EtcdGroupService.EtcdGroupService.GroupAddMember` | groups/etcd_group_service.go:175-205 | without another client in between, does AddMember to the represented groups and tells a missing group from an existing member |
| `EtcdGroupService.EtcdGroupService.GroupRemoveMember` | groups/etcd_group_service.go:208-223 | does RemoveMember to the represented groups; a missing group is reported as a missing member |
| `EtcdGroupService.EtcdGroupService.GroupRemoveAll` | groups/etcd_group_service.go:226-241 | does RemoveAll to the represented groups: exactly that group is emptied, or there is none |
| `EtcdGroupService.EtcdGroupService.GroupDelete` | groups/etcd_group_service.go:244-260 | does Delete to the represented groups: exactly that group goes with its members, or there is none |
| `EtcdGroupService.EtcdGroupService.GroupCountMembers` | groups/etcd_group_service.go:263-271 | the size of the member set, and zero without an error when there is no group |
| `EtcdGroupService.RunsRefine` | groups/etcd_group_service.go:175-260 | however clients are interleaved, also between the read and the transaction of GroupAddMember, the store represents the operations committed so far |
| `EtcdGroupService.RefinesExactly` | groups/etcd_group_service.go:67-73 | every run over a set of names leaves a store that represents the operations committed, and every run leaves no member key without its group key, each if and only if no two of the names clash |
| `EtcdGroupService.OrphanRun` | groups/etcd_group_service.go:175-205 | for every clashing pair, a run of three steps ends with a member of a group that does not exist |
| `EtcdGroupService.SharedKey` | groups/etcd_group_service.go:67-73 | group `a/uids/b` and member `b` of group `a` have the same key |
| `Imports.DescriptorMap.RecursionImports` | docgenerator/descriptors.go:44-61 | ends on cyclic imports; the map keeps its entries and gains exactly the files reachable without passing through an old entry, each under its own descriptor |
| `Imports.DescriptorMap.CollectImports` | docgenerator/descriptors.go:53-60 | the loop over imports, skipping those without a descriptor, completes the file |
| `Imports.ProtoDescriptors` | docgenerator/descriptors.go:22-39 | its errors in order, with the map unchanged; otherwise the file of the message is collected |
| `Imports.ProtoFileDescriptors` | docgenerator/descriptors.go:67-80 | its errors in order, with the map unchanged; otherwise the file is collected |
| `Imports.ClosedStaysClosed` | docgenerator/descriptors.go:44-61 | from a map closed under imports a call adds exactly the reachable files, and the map is closed again |
| `Imports.RunsCollectReachable` | docgenerator/descriptors.go:22-80 | after any sequence of calls the map holds exactly what is reachable from the files asked for |
| `Imports.CompleteExactly` | docgenerator/descriptors.go:44-61 | everything reachable is collected, for every file asked for, if and only if the map was closed under imports before |
| `RateLimiter.FullExactly` | acceptorwrapper/rate_limiter.go:98-112 | for ordered times, at least `limit` lie within the interval if and only if the oldest of the last `limit` does |
| `RateLimiter.RateLimiter.constructor` | acceptorwrapper/rate_limiter.go:53-71 | a new limiter has accepted nothing |
| `RateLimiter.RateLimiter.ShouldRateLimit` | acceptorwrapper/rate_limiter.go:98-112 | rejects exactly when at least `limit` messages were accepted within the interval, and any `limit` + 1 consecutive accepted messages span at least the interval |
| `RateLimiter.RateLimiter.GetNextMessage` | acceptorwrapper/rate_limiter.go:74-94 | returns the first message within the limit or the first error, drops only messages over the limit, and passes everything through when disabled |
| `AgentClose.StepKeeps` | agent/agent.go:376-400 | each step of a Close call, and each status write, keeps the channels and callbacks in order |
| `AgentClose.RunsCloseOnce` | agent/agent.go:376-400 | over every interleaving, also when a late acknowledgement overwrites Closed, no channel is closed twice and no callback runs twice |
| `AgentClose.DueExactly` | agent/agent.go:391-400 | the callbacks due are those counted when the die channel was closed, and a panic is on record exactly when one happened |
| `AgentClose.CallbacksAllRun` | agent/agent.go:563-585 | once the agent died with n callbacks and the call is done, all n ran in order, unless one panicked |
| `AgentClose.StatusIsLastWritten` | agent/agent.go:459-461 | the status is what was written last, by Close or by anyone else |
| `AgentClose.CheckDecides` | agent/agent.go:379-382 | a call goes on exactly when it does not read Closed, and refused changes nothing |
| `AgentClose.ReturnedMeansShut` | agent/agent.go:376-400 | if only Close writes Closed, a Close that came back, even refused, left every channel closed exactly once and all callbacks run, up to one that panicked |
| `AgentClose.ShutExactly` | agent/agent.go:376-400 | a Close that came back left everything shut, in every run, if and only if Closed is not among the statuses others write |
| `AgentClose.Agent.constructor` | agent/agent.go:207-213 | a new agent has all channels open |
| `AgentClose.Agent.Close` | agent/agent.go:376-413 | refused exactly when it finds Closed; otherwise everything is shut, and callbacks run only the first time |
| `AgentClose.Agent.OnSessionClosed` | agent/agent.go:563-585 | runs the callbacks in order, each once, up to the first that panics |

## Left out

- Router.Router.DefaultRoute: the random choice of a server is any choice, and the consistent hash is any function from the nodes of a ring and a key to one of the nodes, so balance is not stated.
- Retention.RunsRemember: assumes that live keys do not share an ID and that watch batches hold whole revisions in order; values may be invalid.
- Convergence.RunsConverge: assumes visible registrations are valid, live keys do not share an ID (which is exactly what it takes), and watch batches hold whole revisions in order, as etcd delivers them.
- ConfigStore.LiveConfig.ApplyConfigValue: requires that no storage is shared between two merged paths of the live object, and that what it changes is not part of the decoded one.
- ConfigSeeder.Seeder.Seed: slots that reflection cannot set, such as private embedded pointers, are not modelled.
- ConfigReload.ReloadAll: the decoder between seeding and merging is a parameter; that it yields values of one type in fresh storage is a precondition, shown to hold of the seeded skeleton.
- RateLimiter.RateLimiter.ShouldRateLimit: requires a limit of at least one; below that the source reads the front of an empty list.
- MemoryGroups.MemoryGroupService.GroupTTLCleanup: times are unbounded integers, so the wrap-around of 64-bit nanoseconds is not modelled; the same holds for the rate limiter and request timeouts.
- EtcdGroupService.EtcdGroupService.CreateGroup: the client attaches to a store that is there already and creates none; leases and TTLs of the etcd service, timeouts and transport errors are not modelled, and GroupRenewTTL is absent.
- EtcdGroupService.EtcdGroupService.GroupMembers: the order of the returned UIDs is not stated.
- JSON of registrations and the clean-up a parsed server goes through: a stored value either decodes to a server or does not.
- GetServers, GetServer and GetAnyFrontend: plain reads of the ID index.
- etcd leases, leader election and the leader watch.
- Session pool, session binding, kick and forwarding between servers.
- The bootstrap client a proto client uses to read descriptors: a bootstrap is one step that succeeds or fails.
- The reader goroutine of the proto client and its hand-over between generations.
- Timers, fan-out requests, packet and message codecs, NATS, gRPC, WebSocket, metrics, tracing, logging, command line.
