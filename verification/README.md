# A model of the global load balancer operator, with proofs

The operator runs HAProxy pods for `GlobalLoadBalancer` objects. Three of its
parts keep state over unbounded runs, and this project models them and proves
what they keep.

- **Health pipeline.** The monitor records, per backend and pod, whether a scrape
  found the backend up (`Monitor`, `MonitorRuns`). Each tick it joins those
  records with the Backend and Frontend objects (`Publish`, `PublishRuns`), hands
  the lists to a cache that decides whether they changed (`HealthCache`,
  `HealthManager`), and the frontend reconciler copies the cache into an
  EndpointSlice (`FrontendController`). `HealthPipeline` is the state machine of
  the whole path: cache write, lossy send, channel, work queue, reconcile steps.
  `EndToEnd` composes all of it, from the samples to the endpoints of a slice.
- **Ports and ownership.** `Ports` is the gap search in 32-bit arithmetic,
  `Allocator` one pass of `ReconcileFrontends`, `ClaimProtocol` any number of load
  balancers passing concurrently over stale listings with version-checked status
  writes, `PortRuns` the ports over whole runs of that protocol.
- **Configuration.** `ConfigBuilder` is the emitted HAProxy text, character by
  character, and a reader of it by sections; `ConfigRoundTrip` proves the two
  agree and that routing by the text is routing by the objects; `ConfigRuns` is
  the per-replica map and the ConfigMap over runs. `Text` holds lines, words and
  decimal numbers with their round trips.

`Api` holds the resources, `Common` facts about sequences, sets and multisets.

The environment is made of parameters and events: what a listing returned, whether
the API server answered a write, whether a receiver was ready, how a label
selector evaluates. Map iteration is an arbitrary choice of the next key. Lock
sections are single steps, and the goroutines of a tick are interleaved by an
arbitrary schedule.

## Findings

Where a natural expectation does not hold of the code, the code is kept and the
exact condition is proved.

- The loop variable of `ReconcileFrontends` is a copy, so all frontends without a
  port in one pass are offered the same port, and the offered port is free among the
  listed frontends only. From a fresh listing, one pass over a store in which owner and
  port are set together keeps the owned ports distinct exactly when at most one listed
  frontend has no port and has its write answered and, if there is one, the offered
  port is not that of an owned frontend, listed or missed. Without the assumption on
  the store the exact condition counts the ports of frontends that join as well. With a
  complete listing only the first half matters.
- Over every run, in the code as written and in the variant in which the amended
  frontend reaches the list (`WriteBack`), owned ports are distinct throughout exactly
  when no accepted write offers an owned port. With complete listings the variant never
  does so, and the code does not if no pass sees two frontends without a port. In both
  there is a run in which a listing that misses an owned frontend leads to such a write.
- Without 32-bit overflow `GetNextPort` returns a port below the minimum exactly when
  something between the lowest port in use and the minimum is free, and otherwise the
  least free port. It returns a port in use exactly when both ends of the 32-bit range
  are in use and no gap is visible to a 32-bit difference.
- The change test of the cache judges a new list correctly against every stored
  list exactly when its addresses are distinct. A published list has distinct
  addresses exactly when no two of its contributing combinations of backend, frontend
  object and pod share one; a pod that is recorded for two backends which both match
  repeats its address.
- Publishing unchanged states again is silent exactly when contributors with one
  address agree on its health. If two matching backends record one pod with different
  health, every tick reports a change.
- The change test ignores node names, so a slice names the nodes of the publish that was
  stored, which need not be the latest one.
- A pod that is sampled after its delete stays recorded for ever and is published
  without an address from the next tick on; these are the only such endpoints, and
  for every pod with an address there is a run that produces one.
- A frontend for which a tick finds no data is not published at all, so its cache entry
  and slice keep the endpoints of the last tick that did: they show the present state
  exactly when the latest round published for the frontend or none ever did. A pod that
  is published and then deleted, with no other data left, stays for ever.
- The scrapes of a tick are free of races exactly when no sampled pod is deleted
  meanwhile.
- An EndpointSlice is current exactly when the cache entry and the port are those that
  its last successful write went by, in every reachable state. As long as the events of
  a frontend are dropped, that is when the entry is what it was. After
  one dropped change it is behind, with nothing under way, unless the new list is the
  old entry; publishing the same health again does not repair it; a dropped change
  followed by its dropped reversal leaves it current.
- Routing by the text and by the objects agree exactly when nothing in front hides
  the section of the frontend or of its target: a frontend named `stats` or
  `prometheus` is hidden by the fixed section of that name, and a backend by an
  earlier listing of its name with other servers, as when it is edited between the
  listings for two frontends.
- A ConfigMap first stored with no replicas has no data; writing into the nil map it
  reads back as panics, so every later pass with a replica fails.

## Model

| member | source | states |
|---|---|---|
| Ports.GetNextPort | internal/controller/globalloadbalancer_controller.go:229-253 | the loops compute `NextPort` of the ports set, and the result is in use exactly when the search goes round |
| Ports.NextPortExactly | internal/controller/globalloadbalancer_controller.go:229-253 | the value for every input: the minimum if no port in use is at or below it, otherwise the 32-bit successor of the lowest port in use that is the highest or has a free successor and a next port near enough for a 32-bit difference |
| Ports.NextPortValue | internal/controller/globalloadbalancer_controller.go:246-252 | without overflow it is the least free port at or above the smaller of the minimum and the lowest port in use |
| Ports.NextPortFreshExactly | internal/controller/globalloadbalancer_controller.go:242-252 | for every input the port returned is in use if and only if both ends of the range are in use and every next port is adjacent or too far for a 32-bit difference |
| Ports.NextPortLeastFreeExactly | internal/controller/globalloadbalancer_controller.go:242-252 | without overflow the port is fresh, and it is the least free one at or above the minimum if and only if nothing between the lowest port in use and the minimum is free |
| Ports.NextPortIsLeastFree | internal/controller/globalloadbalancer_controller.go:229-253 | with all ports at or above the minimum, duplicates included, the result is the least free port |
| Ports.LeastFreeBound | internal/controller/globalloadbalancer_controller.go:246-252 | a least free port exceeds the minimum by at most the number of ports in use |
| Ports.NextPortBelowMinimumExactly | internal/controller/globalloadbalancer_controller.go:242-252 | without overflow the result is below the minimum if and only if something between the lowest port in use and the minimum is free |
| Ports.NextPortFollowsLowPort | internal/controller/globalloadbalancer_controller.go:242-252 | a single port in use below the minimum yields its successor |
| Ports.NextPortGoesRound | internal/controller/globalloadbalancer_controller.go:246-252 | at the input of the two ends of the range, a port in use is returned |
| Allocator.GetFrontends | internal/controller/globalloadbalancer_controller.go:92-104 | the loop keeps exactly the own frontends and, unless only owned ones are asked for, the unowned ones |
| Allocator.FilteredConcat | internal/controller/globalloadbalancer_controller.go:92-104 | ... each as often as it is listed and in list order |
| Allocator.ApiServer.UpdateStatus | internal/controller/globalloadbalancer_controller.go:162-165 | a status write is stored exactly if the server answers and the version is current, and changes only status and version |
| Allocator.ReconcileFrontends | internal/controller/globalloadbalancer_controller.go:129-171 | the loop over copies, with failing writes skipped, leaves the store that the specified pass leaves |
| Allocator.PassOutcome | internal/controller/globalloadbalancer_controller.go:138-168 | a listed frontend changes exactly if it needs a write, the write is answered and the version matches, then only in owner, port and version, and every port-setting write of a pass asks for one and the same port |
| Allocator.PassLeavesAlone | internal/controller/globalloadbalancer_controller.go:146-168 | a pass neither creates nor deletes and leaves alone what it has not listed |
| Allocator.AssignedExactly | internal/controller/globalloadbalancer_controller.go:146-168 | from a fresh listing the frontends that get a port are exactly the listed ones without one whose writes are answered |
| Allocator.PassKeepsPortsDistinctExactly | internal/controller/globalloadbalancer_controller.go:138-168 | for every fresh listing, complete or not, one pass leaves the owned ports distinct if and only if the ports present already differ, at most one listed frontend has no port and has its write answered, and if there is one nobody holds the offered port |
| Allocator.PassAlwaysKeepsPortsDistinctExactly | internal/controller/globalloadbalancer_controller.go:138-168 | ... and whichever writes are answered if and only if that holds with all of them answered |
| Allocator.ClaimedPortsStayDistinctExactly | internal/controller/globalloadbalancer_controller.go:79-168 | from a store with owner and port set together and distinct owned ports: they stay distinct if and only if at most one listed frontend gets a port, and if one does, the offered port is not that of an owned frontend, listed or missed |
| Allocator.ClaimedPortsAlwaysStayDistinctExactly | internal/controller/globalloadbalancer_controller.go:79-168 | ... and whichever writes are answered if and only if at most one listed frontend has no port and, if there is one, the offered port is not an owned one |
| Allocator.CompleteListingKeepsPortsDistinctExactly | internal/controller/globalloadbalancer_controller.go:138-168 | with a complete listing of distinct ports both conditions reduce to their first half |
| Allocator.NewFrontendsSharePort | internal/controller/globalloadbalancer_controller.go:146-168 | any two frontends without a port whose writes go through in one pass end up with the same owner and port |
| Allocator.PassSettles | internal/controller/globalloadbalancer_controller.go:146-168 | after a pass over a fresh listing with all writes accepted every listed frontend is owned and ported |
| Allocator.PassReachesFixedPoint | internal/controller/globalloadbalancer_controller.go:92-168 | every later pass over those frontends writes nothing |
| ClaimProtocol.AdvanceEffect | internal/controller/globalloadbalancer_controller.go:146-168 | an iteration leaves the store as it is or amends exactly the object that was read, which is the stored one |
| ClaimProtocol.StepKeepsInv | internal/controller/globalloadbalancer_controller.go:92-168 | every step of users and of all load balancers keeps: versions identify stored objects, owner and port are set together, what is ahead in a pass is claimable |
| ClaimProtocol.PassWritesOnlyClaimable | internal/controller/globalloadbalancer_controller.go:92-168 | a pass changes only frontends that are unowned or its own, keeps fields that are set, and leaves both fields set |
| ClaimProtocol.ClaimsNeverChange | internal/controller/globalloadbalancer_controller.go:92-168 | in every run, as long as a frontend exists its stored owner and port never change once set, and both are set or neither |
| ClaimProtocol.SettledForever | internal/controller/globalloadbalancer_controller.go:92-168 | frontends once owned and ported cause no write in any later pass, whatever happened in between |
| PortRuns.PortsStayInRange | internal/controller/globalloadbalancer_controller.go:138-168 | in every run whose passes list at most n frontends, every port ever stored lies in [start, start + n) |
| PortRuns.PortsFitSixteenBits | cmd/main.go:257 | with start 10240 and up to 55296 frontends every stored port is between 10240 and 65535 |
| PortRuns.StepKeepsUnique | internal/controller/globalloadbalancer_controller.go:138-168 | each step keeps the owned ports distinct and what a pass in progress knows about them |
| PortRuns.OwnedPortsStayDistinct | internal/controller/globalloadbalancer_controller.go:138-168 | in every run whose passes start from complete listings no load balancer owns two frontends with one port, if no pass of the code as written sees two frontends without a port, and without that condition in the write-back variant |
| PortRuns.OwnerListsItsOwn | internal/controller/globalloadbalancer_controller.go:79-104 | there are runs of that kind in which a load balancer owns a frontend and lists it |
| PortRuns.StepSharesExactly | internal/controller/globalloadbalancer_controller.go:138-168 | under any interleaving and in either variant, a step keeps the owned ports distinct if and only if it is not an accepted write that gives out an owned port |
| PortRuns.PortsSharedExactly | internal/controller/globalloadbalancer_controller.go:79-168 | over every run, whatever its listings miss, owned ports are distinct throughout if and only if no accepted write gives out an owned port |
| PortRuns.IncompleteListingSharesPort | internal/controller/globalloadbalancer_controller.go:79-104 | in either variant there is a run in which a listing that misses an owned frontend leads to a shared port |
| HealthCache.HealthCache.GetHealthy | internal/haproxy/healthcache.go:33-44 | the loop yields the healthy part of the entry |
| HealthCache.HealthyPartConcat | internal/haproxy/healthcache.go:33-44 | the healthy part has each healthy entry as often as it occurs and in list order |
| HealthCache.HealthCache.Update | internal/haproxy/healthcache.go:46-75 | the result is the change test and the new list is stored exactly if it is a change |
| HealthCache.ChangedExactly | internal/haproxy/healthcache.go:56-74 | for all lists there is no change if and only if the lengths agree and each new entry has the health of the last stored entry of its address |
| HealthCache.ChangeDetectionExact | internal/haproxy/healthcache.go:56-74 | for a new list with distinct addresses the test reports a change if and only if the lists differ as multisets of (address, healthy), whatever is stored |
| HealthCache.ChangeDetectionExactIff | internal/haproxy/healthcache.go:56-74 | a new list is judged correctly against every stored list if and only if its addresses are distinct |
| HealthCache.SignalsExactly | internal/haproxy/healthcache.go:46-75 | `Update` returns false if and only if the key is present and the lists are equal as multisets of (address, healthy) |
| HealthCache.CacheHoldsAGivenList | internal/haproxy/healthcache.go:46-75 | after any calls a frontend has an entry exactly if it was updated, and the entry is one of the lists given for it |
| HealthCache.CacheTracksLastList | internal/haproxy/healthcache.go:26-75 | after any calls, if the last list for a frontend has distinct addresses, the entry and its healthy part are permutations of that list and its healthy part on (address, healthy) |
| HealthManager.HealthManager.Update | internal/haproxy/healthmanager.go:25-46 | the cache is updated and one event is delivered exactly if the list changed and a receiver was ready |
| HealthPipeline.PublishTakesTheSteps | internal/haproxy/healthmanager.go:25-46 | each call takes the publish step of the pipeline and then its send or its drop |
| Monitor.HAProxyMonitor.OnDelete | internal/haproxy/haproxymonitor.go:341-355 | the loop that deletes while iterating removes the pod from every inner map and drops exactly the emptied ones |
| Monitor.HAProxyMonitor.RecordSample | internal/haproxy/haproxymonitor.go:223-228 | the sample is recorded and no inner map is left empty |
| Monitor.HAProxyMonitor.TakeSnapshot | internal/haproxy/haproxymonitor.go:131-145 | the targets are exactly the pods with an address, each under and with its own identity, and with its name, namespace, node and address |
| Monitor.CanonicalDetermined | internal/haproxy/haproxymonitor.go:349-354 | a nested map without empty inner maps is determined by its look-ups |
| MonitorRuns.Perform | internal/haproxy/haproxymonitor.go:323-355 | each handler, snapshot and sample write of the class is one step of the runs |
| MonitorRuns.PodsExactly | internal/haproxy/haproxymonitor.go:323-355 | after any run the pod of an identity is the one last added or updated under it, unless it was deleted or updated away since |
| MonitorRuns.TargetsExactlyLastSnapshot | internal/haproxy/haproxymonitor.go:131-145 | after any run a pod has a target if and only if it had an address at the latest snapshot, with its identity, name, namespace, node and address of then |
| MonitorRuns.LogRefinement | internal/haproxy/haproxymonitor.go:223-228 | after any run the entry of a backend and pod is the latest sample that follows the last handled delete of the pod, absent if there is none, and no inner map is empty |
| MonitorRuns.SeparateGoroutinesConfluent | internal/haproxy/haproxymonitor.go:147-157 | every schedule of goroutines that concern different pods ends like running them one after another |
| MonitorRuns.ScrapeConfluence | internal/haproxy/haproxymonitor.go:147-157 | for every interleaving of a tick's scrapes with informer handlers that delete no sampled pod, the map after the wait is that of running the targets in turn |
| MonitorRuns.ScrapeConfluenceExactly | internal/haproxy/haproxymonitor.go:147-157 | all schedules of a tick agree if and only if no sampled pod is deleted meanwhile |
| MonitorRuns.DeleteRaceDiverges | internal/haproxy/haproxymonitor.go:341-355 | deleting a sampled pod before or after the scrapes leaves different maps |
| MonitorRuns.GhostsExactly | internal/haproxy/haproxymonitor.go:131-145 | in every run with unreused identities and kept addresses, a recorded pod has no target if and only if it was sampled after its delete in an earlier tick |
| MonitorRuns.LateSampleRun | internal/haproxy/haproxymonitor.go:223-228 | for every pod with an address there is an allowed run in which it is deleted between a snapshot and its sample, and then nothing remains but its record |
| Publish.Consolidate | internal/haproxy/haproxymonitor.go:246-255 | for any iteration order the OR-accumulating loop yields exactly the recorded states |
| Publish.Join | internal/haproxy/haproxymonitor.go:257-291 | for any iteration order the nested loops yield, per frontend, the multiset of the declarative join, and a list exactly for the frontends that are hit |
| Publish.PublishedExactly | internal/haproxy/haproxymonitor.go:257-291 | an endpoint is published for a frontend if and only if it is that of a pod recorded for a listed, matching backend |
| Publish.PublishedLength | internal/haproxy/haproxymonitor.go:277-289 | the length of a list is the sum of the pod counts of its contributing pairs |
| Publish.PublishedNonEmpty | internal/haproxy/haproxymonitor.go:257-296 | every published list is non-empty |
| Publish.PublishedCounts | internal/haproxy/haproxymonitor.go:277-289 | an endpoint occurs in a list once for each combination of backend, frontend object and recorded pod that yields it |
| Publish.PublishedDistinctExactly | internal/haproxy/haproxymonitor.go:277-289 | a published list has distinct addresses if and only if no two contributing combinations share one |
| Publish.SharedPodRepeats | internal/haproxy/haproxymonitor.go:277-289 | a pod recorded for two backends that both match a frontend makes its list repeat an address |
| Publish.DistinctWithoutSharedPods | internal/haproxy/haproxymonitor.go:277-289 | with targeted pods and distinct target addresses that condition is that no pod contributes twice |
| Publish.PublishedDistinctIps | internal/haproxy/haproxymonitor.go:277-289 | it holds for a frontend with exactly one matching backend with data, distinct target addresses and all recorded pods targeted |
| Publish.PublishedAgreeingExactly | internal/haproxy/haproxymonitor.go:277-289 | the entries of one address in a list agree if and only if the contributors of that address are recorded with one health |
| PublishRuns.UpdateHealthManager | internal/haproxy/haproxymonitor.go:235-299 | a failed listing changes nothing; otherwise the lists are the join, the cache takes exactly the changed ones, and one event goes out for each changed list whose receiver is ready |
| PublishRuns.RoundsAreCalls | internal/haproxy/haproxymonitor.go:294-296 | the entry of a frontend after any rounds is the one after its own calls of `Update` |
| PublishRuns.CacheMatchesLatest | internal/haproxy/haproxymonitor.go:294-296 | after any rounds the cache, and its healthy part, equals the latest list with distinct addresses up to order and node names |
| PublishRuns.CacheHoldsRecordedHealth | internal/haproxy/haproxymonitor.go:246-296 | if no two contributors of the latest round share an address, the cache holds exactly the health they are recorded with, one entry per contributor |
| PublishRuns.LatestRoundShownExactly | internal/haproxy/haproxymonitor.go:257-296 | after any rounds with non-empty lists and no shared address in the latest, the cache shows the present contributors of a frontend if and only if the latest round published for it or none ever did |
| PublishRuns.DeletedPodStaysCached | internal/haproxy/haproxymonitor.go:257-263 | for every pod with an address and matching backend and frontend there is a run after which the pod is deleted, nothing is recorded, and its endpoint is still cached |
| PublishRuns.RepublishingSignalsExactly | internal/haproxy/haproxymonitor.go:246-296 | for every frontend and whatever is cached, a further round over unchanged states, in any order, signals if and only if contributors of one address disagree on its health |
| PublishRuns.EveryRoundSignalsExactly | internal/haproxy/haproxymonitor.go:246-296 | over runs, the same of every round that follows one over the same states |
| PublishRuns.DisagreeingBackendsAlwaysSignal | internal/haproxy/haproxymonitor.go:281-288 | a pod that two matching backends record with different health makes every such round signal |
| PublishRuns.RepublishingIsSilent | internal/haproxy/haproxymonitor.go:246-296 | if no two contributors share an address, a round leaves the cache equal to the list up to order and node names and a further one signals nothing and changes nothing |
| PublishRuns.PublishedEndpointsAreReal | internal/haproxy/haproxymonitor.go:281-288 | without late samples every published endpoint has an address, the one its pod had at the latest snapshot |
| PublishRuns.EmptyAddressExactly | internal/haproxy/haproxymonitor.go:281-288 | an endpoint without an address is published if and only if a late-sampled pod is recorded for a contributing backend |
| PublishRuns.EmptyAddressReachable | internal/haproxy/haproxymonitor.go:281-288 | for every pod with an address and every matching backend and frontend there is a run after which each round publishes such an endpoint |
| FrontendController.FrontendReconciler.Reconcile | internal/controller/frontend_controller.go:75-89 | a missing or unported frontend is ignored without a retry, an error is retried, and only a complete success leaves the slice, which shows each cache entry in order with its address, readiness and node |
| FrontendController.FrontendReconciler.ReconcileService | internal/controller/frontend_controller.go:91-174 | an unported frontend is skipped; the Service targets the status port; the slice is the pointwise image of the cache entry |
| HealthPipeline.StepKeepsKeyInv | internal/haproxy/healthmanager.go:25-46 | every step keeps: a ported frontend is up to date, woken, or in a reconcile, and a reconcile works on current data or is woken |
| HealthPipeline.SliceAgreesUnlessWoken | internal/controller/frontend_controller.go:75-174 | in every reachable state a slice that is not the image of the cache entry has an update before its send, an event under way, a queued reconcile, one that will read or write current data, or an event dropped since the last cache read |
| HealthPipeline.QuietMeansAgreed | internal/controller/frontend_controller.go:75-174 | with nothing under way and no drop the slice is the image of the cache entry |
| HealthPipeline.ReconcileTakesTheSteps | internal/controller/frontend_controller.go:75-174 | whether fetch, Service write and slice write succeed, fail or find nothing, the steps of a reconcile taken together leave the state that the reconciler leaves, queued again exactly if it asks for a retry |
| HealthPipeline.CurrentExactly | internal/controller/frontend_controller.go:75-174 | in every reachable state a slice is the image of the cache entry if and only if entry and port are those that its last successful write went by |
| HealthPipeline.LostUpdatesExactly | internal/haproxy/healthmanager.go:25-46 | over every run that sends no event of a frontend and does not change its object, a slice that was current is current in the end if and only if the cache entry is what it was |
| HealthPipeline.DroppedUpdateExactly | internal/haproxy/healthmanager.go:35-45 | from every state with a current slice, after a dropped change and any silent publishes and steps of other frontends, the slice is current if and only if the new list is the entry it replaced |
| HealthPipeline.DroppedDuringReconcile | internal/haproxy/healthmanager.go:35-45 | after a change that is dropped between the cache read and the slice write of a reconcile, nothing is under way and the slice is current if and only if the new list is the entry that was read |
| HealthPipeline.DroppedReversalCancels | internal/haproxy/healthmanager.go:35-45 | a dropped change followed by its dropped reversal leaves the slice current |
| HealthPipeline.DroppedEventLosesUpdate | internal/haproxy/healthmanager.go:35-45 | for every frontend there is a run that ends with nothing under way and the slice not the image of the cache entry |
| HealthPipeline.RepublishingDoesNotRepair | internal/haproxy/healthmanager.go:26-30 | publishing the same health any number of times changes nothing |
| EndToEnd.ContributedIsSampled | internal/haproxy/haproxymonitor.go:223-228 | what is contributed to a frontend is what was last sampled, after the last delete, for the backends it selects |
| EndToEnd.CacheTracksLastPublish | internal/haproxy/healthmanager.go:25-46 | in every run of the pipeline the entry of a frontend is a permutation, on (address, healthy), of its last published list with distinct addresses |
| EndToEnd.SliceShowsLatestSamples | internal/controller/frontend_controller.go:91-174 | for every monitor run and every pipeline run whose last publish is the joined list of a frontend: with nothing under way, no drop and no shared address, the slice shows, once each, the address and latest sample of every pod of every selected backend, and nothing else |
| EndToEnd.SliceShowsLatestSamplesExactly | internal/controller/frontend_controller.go:91-174 | ... and for a frontend that the latest round may have skipped: the slice shows the latest samples if and only if that round published for it or nothing ever was |
| EndToEnd.SliceAddressesAreReal | internal/controller/frontend_controller.go:149-168 | without late samples every address in the slice is one that its pod had at the latest snapshot |
| EndToEnd.SliceEndpointsAreOwn | internal/controller/frontend_controller.go:149-168 | if every published list comes from a round over a run without late samples, a quiet slice is empty or comes from the publish that was stored: each endpoint has the address, node and health that its own pod had there |
| EndToEnd.NodeChangeIsSilent | internal/haproxy/healthcache.go:56-74 | a list that differs from the entry only in its nodes is not a change, so the stored publish need not be the latest |
| ConfigRuns.BuildConfig | internal/haproxy/configbuilder.go:17-87 | there is a config for exactly the ordinals from 0 below the replica count, each the fixed part followed by the rendered objects |
| ConfigRuns.GetBackends | internal/controller/globalloadbalancer_controller.go:107-127 | one listing per frontend; a failing selector or listing fails the whole; otherwise the map that later frontends of one name override |
| ConfigRuns.BackendsFoundIff | internal/controller/globalloadbalancer_controller.go:110-124 | the call succeeds if and only if every listing does |
| ConfigRuns.BackendsFoundExactly | internal/controller/globalloadbalancer_controller.go:110-124 | ... and then holds, for each frontend name and no other, the listing of the last frontend of that name |
| ConfigRuns.EachFrontendItsBackends | internal/controller/globalloadbalancer_controller.go:110-124 | with distinct names each frontend gets exactly what its own listing returned |
| ConfigRoundTrip.ConfigRoundTrip | internal/haproxy/configbuilder.go:23-51 | for names, hosts and addresses without white space, reading the emitted text by sections recovers in order each frontend's bind port, rules, mode, inspection delay and acceptance of a client hello, and each backend's servers and mode |
| ConfigRoundTrip.TargetsHaveSections | internal/haproxy/configbuilder.go:34-50 | every rule's target has a section, and the one found holds the servers of the first listed backend of that name |
| ConfigRoundTrip.RoutingPreservedExactly | internal/haproxy/configbuilder.go:23-83 | for every frontend and server name, routing by the text, which needs tcp mode and the wait for a client hello, and routing by the objects agree if and only if the objects route nowhere, or the frontend has neither of the names `stats` and `prometheus` and the first listed backend of the target's name has the target's servers |
| ConfigRuns.EditedBackendMisroutes | internal/controller/globalloadbalancer_controller.go:110-124 | if a backend is edited between the listings that `getBackends` makes for two frontends, the text of its result sends the connections of the later one to the earlier servers |
| Text.IntRoundTrip | internal/haproxy/configbuilder.go:33-54 | numbers survive printing and reading |
| Text.NatCanonical | internal/haproxy/configbuilder.go:33-54 | numbers print as digits without a leading zero |
| Text.HostPortRoundTrip | internal/haproxy/configbuilder.go:46-48 | an address and port are read back, colons in the address included |
| ConfigRuns.ConfigReconciler.ReconcileConfig | internal/controller/globalloadbalancer_controller.go:173-216 | a failed listing changes nothing; otherwise the configs are merged under their keys, or the pass fails or panics and changes nothing |
| ConfigRuns.KeysNeverCollide | internal/haproxy/configbuilder.go:54-54 | different ordinals have different pod names and keys |
| ConfigRuns.KeyHoldsLastWriter | internal/controller/globalloadbalancer_controller.go:195-209 | after any passes the key of an ordinal holds the text of the last stored pass whose replica count exceeds it, and is absent if there is none |
| ConfigRuns.LatestPassIsServed | internal/controller/globalloadbalancer_controller.go:195-209 | after a stored pass the file that each pod with an ordinal below the replica count reads holds the latest config |
| ConfigRuns.KeysAreKept | internal/controller/globalloadbalancer_controller.go:203-209 | no key is ever removed |
| ConfigRuns.EmptyStuckExactly | internal/controller/globalloadbalancer_controller.go:200-209 | the stored data is empty, and stays so, if and only if the first stored pass had no replicas |

## Left out

- HTTP scraping and metric decoding: a scrape is an arbitrary sequence of (backend, up) samples of its target.
- Label selector evaluation: a parameter that answers match, no match or malformed.
- The pod label filter in front of the handlers, and deletes that arrive as tombstones and are ignored by it: a run holds the deletes that are handled.
- The StatefulSet object apart from its name, its replica count and the path its container reads.
- Several namespaces with equal names: `BuildConfig` and `getBackends` key by name, and one namespace is assumed where names must be unique.
- The peer service watcher, the manager's wiring, flags and leader election.
- HAProxy's own parsing rules beyond sections, words and the directives that routing depends on: quoting, comments, the rejection of repeated section names, and the effect of log, option, timeout and stats lines.
- Conditions, annotations, owner references and labels of the written objects: copied or constant.
- External changes to a Service, an EndpointSlice or the ConfigMap, which the operator does not watch; a slice is collected only when its frontend is gone.
- Timing: ticks and retries happen in any order; nothing is claimed about when.
- Text.Itoa: the `%d` of the format strings is modelled on unbounded integers, of which 32-bit values are a part.
