# Verified model of an operator runtime's core

A Dafny model of the parts of this Kubernetes operator runtime in which the order of things matters:
Go ranges over maps in no fixed order, goroutines interleave, later layers override earlier ones, caches
stand in for backends, rings forget. For each part the model states what the result must be, whatever
that order was, and proves it.

| files | part |
|---|---|
| DependencyOrder, DependencyGraph | `dependsOn`: the deterministic Kahn sort and the depth-first check of validation |
| EventRecorder | the event recorder and its shutdown, as interleaved atomic steps |
| Paths, FieldTrees, RoutingOrders, IntentRouting | dotted paths, nested maps, routing a submitted intent into a resource |
| ExternalCalls, CachedRuns | the external-call runner with its result cache, and runs that share the cache |
| Rbac, GatewayClusters | generated RBAC rules, read as the permissions they grant; rules per remote cluster |
| HealthStats, HealthTrackers | rolling-window statistics of the conversion and admission webhooks |
| EntryMerge, StackMerge, StackLoader | overriding one CRD declaration with another, and loading a Stack |
| ForEach | expansion of template sources over the items of a field |
| LabelPatch, LabelMaintenance, Finalizers | label diffs under RFC 7396, the system labels, finalizer lists |
| CronNotes, RedisCommand, LookupIndexes | cron notes, the Redis command splitter, the catalog's lookup indexes |
| Json, Ordering | JSON values; Go's string order, the library sort, facts about sequences shared by the others |

Objects whose methods change their fields are classes, slices changed in place are arrays, loops over Go maps
take their keys in an arbitrary order (`:|`), and each such method is proved against a function of its inputs or
of its history. Template rendering, condition evaluation, backends, loaders, lowercasing and the clock enter as
parameters. Error texts are reduced to which error it is.

## What the proofs found

- `GetDependents` and `GetDependencies` return each other's relation (pkg/catalog/dependencies.go:170-185), and
  `Catalog.Order`, documented as a topological sort, returns the shutdown order, which is one only when nothing
  depends on anything (`DependencyGraphs.CatalogOrder`). The model follows the code.
- An intent's result is independent of map iteration exactly when an expression does not render, every two writes
  agree, or every order of the writes fails (`IntentRouting.OneResultIff`). When no map is written, the last means
  that some fields write above one another in a circle (`RoutingOrders.AlwaysFailsIff`); a written map can make room
  again (`RoutingOrders.MapsCanUnblock`). A field written to `a` and another to `a.b` succeed or fail by iteration
  order (`FieldTrees.OrderCanMatter`).
- The runner sends the rendered body and the credential (pkg/external/http.go:33-75), but the cache key holds neither.
  Two resources whose calls differ only in a templated body share an entry, and the second one gets the first one's
  answer (`CachedRuns.SameKeyOtherBody`). One run goes as without the cache, at each of its calls, exactly when every
  lookup finds nothing or what a fetch would give (`ExternalCalls.CachedAgreesIff`). No run ever sees the cache,
  whatever the runs before it, exactly when each call that looks in the cache has the answer that any call keeps
  under its key (`CachedRuns.CacheInvisibleIff`). Besides bodies and credentials, clients that fail outright can
  break this, as an entry kept by a tolerant call answers a strict one (`CachedRuns.ShadowedRunDiffers`); the
  program's own clients report every error in the entry. A run in which every call is skipped leaves no trace,
  although the skipped results were recorded.
- The reported minimum latency starts over after a zero duration (`HealthStats.MinRightIff`).
- Merging an override loses the base's endpoint settings when the override declares none
  (`EntryMerge.EmptyLayerHarmlessIff`), ignores endpoints declared as disabled, and cannot switch a disabled CRD on
  again (`EntryMerge.LayersOnlyTurnOff`).
- A helm import leaves the settings of the load before it on the merger. The stale security block is harmless, but
  stale profiles or notes make the Stack fail unless the import comes first, and then it takes over the previous
  entry point's settings (`StackLoader.ImportsOkIff` says exactly when imports combine). No Stack keeps a
  certificate manager.
- All copies of a StatefulSet source share one volume-claim slice that expansion renders in place, so every copy, and
  every later expansion, gets the claims of the first item (`ForEach.FirstItemWins`, `ForEach.SecondCopyIsWrong`).
- A label to be added with an empty value never reaches the server (`LabelPatch.EmptyLabelIsLost`); with the
  system labels this happens only when a user label empties one of them.
- The apiVersion-and-kind index files under a concatenation, so a lookup is right for every map order exactly when
  nothing collides with the query (`LookupIndexes.PairLookupRightIff`).

## Model

| member | source | states |
|---|---|---|
| DependencyGraphs.NewDependencyGraph | pkg/catalog/dependencies.go:41-71 | building succeeds exactly when every dependsOn name is an enabled CRD; the graph then holds exactly the declared relation, for every order in which the maps are ranged over; otherwise the error names a real missing dependency |
| DependencyGraphs.DependencyGraph.AddNodes | pkg/catalog/dependencies.go:49-55 | one separate node per CRD, both degrees zero, no edges |
| DependencyGraphs.DependencyGraph.AddEdge | pkg/catalog/dependencies.go:64-66 | one more edge, both degrees still counting the edges known so far |
| DependencyGraphs.DependencyGraph.AddDependencies | pkg/catalog/dependencies.go:60-67 | all edges into one CRD, or a dependency that is no node |
| DependencyGraphs.DependencyGraph.AddEdges | pkg/catalog/dependencies.go:57-68 | after all CRDs the adjacency lists hold each declared edge once and the degrees count them |
| DependencyGraphs.DependencyGraph.StartupOrder | pkg/catalog/dependencies.go:79-135 | an order is returned exactly when the relation has no cycle, and it is the least of all topological orders in dictionary order, hence independent of map iteration; the cached order stays that one |
| DependencyGraphs.DependencyGraph.Kahn | pkg/catalog/dependencies.go:80-125 | what the loop emits has no repeats, respects every dependency, always takes the least ready name, and ends only when nothing is ready |
| DependencyGraphs.DependencyGraph.CopyInDegrees | pkg/catalog/dependencies.go:82-85 | the copied in-degrees count the dependencies not started yet, and the names at zero are exactly the ready ones |
| DependencyGraphs.ZeroInDegree | pkg/catalog/dependencies.go:88-100 | the first queue is sorted and holds exactly the names of in-degree zero |
| Ordering.StringLessIsDictionaryOrder | pkg/catalog/dependencies.go:92 | one string sorts before another exactly when it is a proper prefix of it or has the smaller character at the first difference |
| Ordering.StringOrderOnCharacters | pkg/catalog/dependencies.go:92 | a string comes after its proper prefixes, and after equal beginnings the smaller character decides |
| DependencyGraphs.DependencyGraph.Start | pkg/catalog/dependencies.go:113-124 | one round keeps the in-degrees counting unstarted dependencies and the queue sorted and equal to the ready names |
| DependencyGraphs.Release | pkg/catalog/dependencies.go:116-121 | lowering the dependents' in-degrees queues exactly the names that become ready, each once |
| DependencyGraphs.NewlyReady | pkg/catalog/dependencies.go:116-121 | which names become ready when one CRD starts |
| DependencyGraphs.KahnStep | pkg/catalog/dependencies.go:105-110 | the head of the sorted queue extends the greedy order |
| DependencyGraphs.DependencyGraph.ShutdownOrder | pkg/catalog/dependencies.go:139-142 | the mirror image of the least topological order; every dependent stops before what it depends on |
| DependencyGraphs.MirrorStopsDependentsFirst | pkg/catalog/dependencies.go:137-142 | reversing any topological order stops dependents first |
| DependencyGraphs.MirrorRespectsIff | pkg/catalog/cliMethods.go:165-169 | the reversed order puts dependencies first only when there are none |
| DependencyGraphs.CatalogOrder | pkg/catalog/cliMethods.go:165-169 | Catalog.Order is the shutdown order: dependents first, and a topological sort exactly when nothing depends on anything |
| DependencyGraphs.Reversed | pkg/utils/utils.go:97-103 | the array filled from the back is the reversed sequence |
| DependencyGraphs.DependencyGraph.GetDependents | pkg/catalog/dependencies.go:170-180 | despite its name it returns exactly the CRDs the given one depends on, each once |
| DependencyGraphs.DependencyGraph.GetDependencies | pkg/catalog/dependencies.go:183-185 | despite its name it returns exactly the CRDs that depend on the given one, each once |
| DependencyGraphs.CycleDetector.Dfs | pkg/catalog/validate/methods.go:102-122 | a failing search has found a real cycle; a succeeding one leaves the explored names in an order without cycles |
| DependencyGraphs.DetectCycles | pkg/catalog/validate/methods.go:93-131 | the depth-first check passes exactly when there is no cycle, for every order of exploration |
| DependencyGraphs.BackEdge | pkg/catalog/validate/methods.go:104-106 | a dependency found on the stack closes a cycle |
| DependencyGraphs.ValidateDependsOn | pkg/catalog/validate/methods.go:69-87 | validation passes exactly when every dependency is enabled and there is no cycle, self-dependency included |
| DependencyGraphs.StartValidated | pkg/catalog/validate/methods.go:69-87 | a Catalog gets a start-up order exactly when validation passes: the two algorithms agree |
| DependencyOrder.OrderWhenReadyRunsOut | pkg/catalog/dependencies.go:127-129 | a respecting order that cannot be continued is shorter than the node list exactly when the relation has a cycle, and is a topological order otherwise |
| DependencyOrder.StuckHasCycle | pkg/catalog/dependencies.go:127-129 | names that all wait for one another contain a cycle (pigeonhole on a walk) |
| DependencyOrder.CyclesAvoidOrders | pkg/catalog/dependencies.go:104-129 | no name on a cycle is ever emitted |
| DependencyOrder.TopologicalMeansAcyclic | pkg/catalog/dependencies.go:127-129 | a complete order excludes cycles |
| DependencyOrder.GreedyIsLeast | pkg/catalog/dependencies.go:105-125 | always starting the least ready name gives the lexicographically least topological order |
| DependencyOrder.LeastTopologicalUnique | pkg/catalog/dependencies.go:73-78 | there is only one such order, so the result is deterministic |
| DependencyOrder.DegreesAddUp | pkg/catalog/dependencies.go:35-36 | in-degrees, out-degrees and edges have the same sum |
| EventRecorder.RunsKeepInvariant | pkg/event/event.go:89-131 | every interleaving of any number of events with one shutdown keeps lock ownership, the wait-group count, the stop discipline and the order of the log |
| EventRecorder.WaitGroupCountsPending | pkg/event/event.go:95-100 | in every reachable state the wait group equals the number of accepted events that have not finished |
| EventRecorder.NothingAcceptedOnceStopped | pkg/event/event.go:90-95 | after the flag is set no event is accepted |
| EventRecorder.MutualExclusion | pkg/event/event.go:90-112 | at most one call, Shutdown included, is inside the critical section |
| EventRecorder.NoAddWhileWaiting | pkg/event/event.go:95-119 | once the waiter exists nothing can be added to the wait group |
| EventRecorder.FlushedShutdownComesLast | pkg/event/event.go:121-130 | on the flushed path every accepted event finished before the broadcaster shut down, and nothing follows |
| EventRecorder.TimedOutShutdownRecordsOnlyEarlierEvents | pkg/event/event.go:124-130 | on the timeout path a later record belongs to an event accepted before the flag was set |
| EventRecorder.RecordedOnce | pkg/event/event.go:99-104 | each event is recorded at most once, after it was accepted; that it is recorded at all is the next four rows |
| EventRecorder.FinishedEventsAreRecorded | pkg/event/event.go:95-105 | in every run in which the recorder is started before the goroutine gets to it, an event that has finished was recorded after it was accepted and before it finished |
| EventRecorder.RecordedIff | pkg/event/event.go:99-104 | in every run, an event is recorded exactly when its goroutine got to the recorder after the start |
| EventRecorder.FlushedShutdownRecordedAll | pkg/event/event.go:114-130 | on the flushed path of a recorder started in time every accepted event was recorded before the broadcaster shut down |
| EventRecorder.CheckDecides | pkg/event/event.go:90-97 | in every run, a call that reads the flag before it is set is accepted, at the latest when it leaves the critical section, and one that reads it later never is |
| EventRecorder.FlagsTell | pkg/event/event.go:80-111 | in every run the recorder is started, stopped or cancelled exactly when some step did so |
| EventRecorder.EventRunsThrough | pkg/event/event.go:89-106 | a call that finds the lock free can run to its end, leaving its three entries in the log, or nothing when the flag is set |
| EventRecorder.ShutdownCanTimeOut | pkg/event/event.go:121-130 | a waiting Shutdown can time out at any moment, and the broadcaster then goes down unflushed |
| EventRecorder.ShutdownCanAlwaysFlush | pkg/event/event.go:108-131 | from every reachable state in which Shutdown has been called, the holder of the lock, the accepted events, the waiter and Shutdown itself can take it to its end; unless it had timed out already, nothing is then in flight and the broadcaster went down as flushed |
| EventRecorder.ToSelecting | pkg/event/event.go:90-121 | whoever holds the lock can run to its unlock, and Shutdown gets as far as its select |
| EventRecorder.InvStep | pkg/event/event.go:89-131 | each atomic step keeps the invariant |
| Paths.SplitFieldPath | pkg/children/foreach.go:619-629 | the scan with a moving start returns the library split at dots |
| Paths.JoinOfSplit | pkg/children/foreach.go:619-629 | joining the segments with dots gives the path back |
| Paths.SplitOfJoin | pkg/children/foreach.go:619-629 | splitting joined dot-free segments gives the segments back |
| FieldTrees.ReadBack | pkg/utils/nested.go:71-98 | a value written at a path reads back |
| FieldTrees.ReadElsewhere | pkg/utils/nested.go:71-98 | a write leaves every incomparable path as it was |
| FieldTrees.ReadAbove | pkg/utils/nested.go:83-93 | above a written path there are maps |
| FieldTrees.FailsBelowScalar | pkg/utils/nested.go:88-91 | a write fails only below a segment that holds something other than a map |
| FieldTrees.SetSame | pkg/utils/nested.go:71-98 | writing what is there changes nothing |
| FieldTrees.AgreeingWritesHold | pkg/intent/build.go:115-157 | writes that agree pairwise all succeed, and the tree holds exactly what they wrote |
| FieldTrees.OrderIrrelevantIffAgree | pkg/intent/build.go:115-157 | all orders of a list of writes build the same tree, or fail alike, if and only if every two writes agree; then each reads back |
| FieldTrees.LongestFirst | pkg/intent/build.go:115-157 | writing longer paths before shorter ones always succeeds, so any disagreement is visible in some order |
| FieldTrees.OrderCanMatter | pkg/intent/build.go:115-157 | a concrete pair of writes that fails in one order and succeeds in the other |
| IntentRouting.Resource.Skeleton | pkg/intent/build.go:69-81 | an empty spec, no labels, no annotations |
| IntentRouting.Resource.SetSpecValue | pkg/intent/build.go:182-188 | the flat assignment and the nested write are one operation on the split path, failures included |
| IntentRouting.Resource.Write | pkg/intent/build.go:126-134 | one write of a field, or the error that replaces it, with its field and path |
| IntentRouting.Resource.RouteSpecField | pkg/intent/build.go:121-157 | one declared field makes exactly its writes, the fan-out in any order, and fails exactly when an expression does not render |
| IntentRouting.Resource.RouteField | pkg/intent/build.go:115-172 | one submitted field goes to its one destination; IntentRouting.WritesAsDeclared and Tagged in RouteFields say which |
| IntentRouting.Resource.RouteFields | pkg/intent/build.go:93-178 | in whatever order the fields come, the spec is the result of exactly the declared writes; labels are the printed values of exactly the submitted keys declared as labels and not as fields, annotations those declared as neither; an error is returned exactly when an expression or a write failed |
| IntentRouting.WritesAsDeclared | pkg/intent/build.go:115-157 | the writes are exactly those the declared fields ask for: a fan-out writes the text of each expression at its path, a single expression its text and a plain field the submitted value, at the declared path or else under the field name |
| IntentRouting.RendersAsDeclared | pkg/intent/build.go:121-150 | the expressions that must render are those of the fan-out if there is one, else the single one if there is one |
| IntentRouting.ShownAsDeclared | pkg/intent/build.go:160-170 | which submitted keys become labels and which annotations, and with which value |
| IntentRouting.Route | pkg/intent/build.go:51-58 | one intent, routed or rejected, as a function of the order its writes happened to take; labels and annotations are as declared in every order |
| RoutingOrders.IncomparableAgree | pkg/intent/build.go:93-178 | writes at pairwise incomparable paths agree |
| RoutingOrders.RoutingConfluent | pkg/intent/build.go:93-178 | when the writes agree, every iteration order of both maps builds the same spec without error, and each path reads back its value |
| RoutingOrders.RoutingConfluentIffAgree | pkg/intent/build.go:93-178 | a successful order is matched by all others if and only if the writes agree, fan-out included |
| RoutingOrders.OrderEndingIn | pkg/intent/build.go:115-125 | every write comes last in some iteration order of the two maps |
| RoutingOrders.OrderFreeIff | pkg/intent/build.go:93-178 | the written tree does not depend on the iteration order if and only if the writes agree or every order fails, which for writes of anything but maps is a circle of fields that write above one another |
| RoutingOrders.AlwaysFailsIff | pkg/intent/build.go:115-157 | if every order fails, some fields write above one another in a circle; for writes of anything but maps the converse holds too |
| RoutingOrders.AcyclicCanSucceed | pkg/intent/build.go:115-157 | whatever the values, fields that do not write above one another in a circle have an iteration order in which every write succeeds |
| RoutingOrders.CyclesFail | pkg/intent/build.go:115-157 | fields that do and write no maps fail in every iteration order |
| RoutingOrders.MapsCanUnblock | pkg/intent/build.go:115-157 | a concrete circle that a third field breaks by writing a map |
| FieldTrees.ScalarsSucceedIff | pkg/utils/nested.go:71-98 | writes of anything but maps all succeed if and only if none is strictly below an earlier one |
| FieldTrees.DescendingSucceeds | pkg/utils/nested.go:71-98 | whatever the values, no write fails that is not strictly below an earlier one |
| RoutingOrders.DisagreeingFanOutsCanAlwaysFail | pkg/intent/build.go:121-136 | two concrete fan-outs whose writes disagree and which fail in every order |
| IntentRouting.OneOutcome | pkg/intent/build.go:93-178 | agreeing writes leave one possible result, which is an error exactly when an expression does not render |
| IntentRouting.OneResultIff | pkg/intent/build.go:93-178 | an intent has one result, errors included, if and only if an expression does not render, its writes agree, or every order of them fails; without written maps the last is a circle of fields that write above one another |
| IntentRouting.MapsComeFromMaps | pkg/intent/build.go:121-157 | an expression writes text, so a map is written only where one is submitted for a field without expressions |
| IntentRouting.RouteTwice | pkg/intent/build.go:93-178 | two runs over the same agreeing intent give the same resource or both fail |
| ExternalCalls.Run | pkg/external/runner.go:25-130 | computes the cached run, the cache and the number of clock readings included, for every call list and monotone clock, and leaves the caller's resolver as it was; what it sends is CachedRuns.AskedAreCalls |
| ExternalCalls.PrepareIff | pkg/external/runner.go:49-65 | a call is prepared exactly when url, query, body and auth resolve, each part then being its resolution; otherwise the error names the first of them that does not, with the index of the call |
| CachedRuns.AskedAreCalls | pkg/external/runner.go:39-80 | what a run sends is a call of its list whose conditions hold, its parts rendered in a view of the same data, with the resolved credential |
| CachedRuns.RunStopsFor | pkg/external/runner.go:49-120 | a run stops at a call with a part that does not resolve, naming it, or at a strict call that fails, with its message, and without an error exactly no strict call has failed |
| CachedRuns.AnswersAreVisible | pkg/external/runner.go:97-107 | after a run every answer, that of a failing call included, is found under the name of its call, names being distinct |
| ExternalCalls.SkippedLooksEmpty | pkg/external/runner.go:135-151 | a skipped call reads as not called, without error, all texts empty, in the shape of its protocol |
| ExternalCalls.ErrorResultTells | pkg/external/prometheus.go:152-159 | a tolerated failure reads as called, with its message under error and no result |
| ExternalCalls.ErrorOfIff | pkg/external/runner.go:101 | an entry is a failure exactly when it has a non-empty text under error |
| ExternalCalls.Obtain | pkg/external/runner.go:66-96 | the lookup, the fetch on a miss and the storing of one call |
| ExternalCalls.ObtainedUncachedIff | pkg/external/runner.go:66-96 | one call gets what a fetch would give if and only if the cache holds nothing unexpired under its key or just that |
| ExternalCalls.CachedAgreesIff | pkg/external/runner.go:39-129 | for every cache and clock, a run has the same view and error at each of its calls as without the cache if and only if no lookup finds anything but what a fetch would give |
| ExternalCalls.AgreesUntil | pkg/external/runner.go:39-129 | up to its first wrong answer a cached run goes as the uncached one |
| ExternalCalls.DiffersAt | pkg/external/runner.go:39-129 | at its first wrong answer the view or the error differs |
| CachedRuns.CacheInvisibleIff | pkg/external/runner.go:25-130 | over any set of runs, whatever the clock and the runs before, no run sees the cache at any call if and only if each call that looks in the cache has the answer that any call of these runs keeps under its key |
| CachedRuns.SettledNeverWrong | pkg/external/runner.go:66-96 | a run whose cached calls have the answers known under their keys gets no wrong answer and keeps only known ones |
| CachedRuns.KeptIsHeld | pkg/external/protocol.go:54-72 | while the clock stands still, what a call keeps stays in the cache to the end of the run |
| CachedRuns.HeldAnswers | pkg/external/protocol.go:54-65 | an entry that has not expired answers every later call with its key |
| CachedRuns.ObtainedTruthful | pkg/external/runner.go:66-96 | what is found is a known answer, and as long as known answers are kept, every unexpired entry stays one |
| CachedRuns.RunRefinesUncached | pkg/external/runner.go:25-130 | for every cache, a run that gets no wrong answer has the view and error of the uncached one; among runs whose answers depend on the key only that is every run, and the cache keeps holding their answers |
| CachedRuns.FixedPerKeySuffices | pkg/external/runner.go:39-129 | a backend that looks at nothing but the key, and clients that never fail outright, make the cache invisible |
| CachedRuns.SameKeyOtherBody | pkg/external/protocol.go:50-52 | two concrete resources whose calls differ in the body only: the second one gets the first one's answer |
| CachedRuns.CachedRunIs | pkg/external/runner.go:39-129 | for a backend that looks at nothing but the key, the cached run is the uncached one, unless a call that ends the uncached run with a hard failure is shadowed by a cached answer; then it is the run resumed with that failure as the call's entry |
| CachedRuns.ShadowIsFirstWrong | pkg/external/runner.go:66-96 | for such a backend a run gets a wrong answer exactly at a shadowed call |
| CachedRuns.ShadowCause | pkg/external/runner.go:70-96 | a shadowed call is answered by an entry from before the run or by one that an earlier tolerant call kept |
| CachedRuns.ShadowedRunDiffers | pkg/external/runner.go:80-96 | a concrete tolerant and strict call with one key: hard error without the cache, the entry's error with it |
| CachedRuns.ShadowedRunCanAgree | pkg/external/runner.go:80-96 | a concrete shadowed failure without a message after which both runs, different at that call, stop alike |
| ExternalCalls.SkippedOnlyLeavesNoTrace | pkg/external/runner.go:40-47 | a run that skips every call leaves the resolver without results |
| ExternalCalls.CacheKeyInjective | pkg/external/protocol.go:50-52 | keys of NUL-free parts identify the four parts; the query may even contain NUL |
| ExternalCalls.CacheKeyCollides | pkg/external/protocol.go:50-52 | with a NUL in the URL two different calls share a key |
| ExternalCalls.ResultCache.Get | pkg/external/protocol.go:54-65 | a hit exactly for an entry that has not expired; an expired one is removed |
| ExternalCalls.ResultCache.Set | pkg/external/protocol.go:67-72 | the entry expires ttl after now |
| Rbac.ParseGroup | pkg/catalog/generate_rbac.go:866-869 | the group of an apiVersion never contains a slash |
| Rbac.RbacVerbsMeaning | pkg/catalog/generate_rbac.go:36-41 | the extra verbs are escalate and bind on roles and clusterroles, nothing else |
| Rbac.DedupKeyInjective | pkg/catalog/generate_rbac.go:838 | the joined key determines a custom rule |
| Rbac.DedupStep | pkg/catalog/generate_rbac.go:838-842 | skipping a rule whose key was seen loses no permission |
| Rbac.CustomRulesForCrd | pkg/catalog/generate_rbac.go:851-883 | the rules of one CRD grant exactly what its custom entries need, each key once |
| Rbac.CustomResourceRules | pkg/catalog/generate_rbac.go:833-846 | deduplicated over all CRDs in any map order, the rules grant exactly the union |
| Rbac.SecretNamesFrom | pkg/catalog/generate_rbac.go:273-285 | the names are exactly the static ones; the flag says whether some name is a template |
| Rbac.SystemRules | pkg/catalog/generate_rbac.go:361-398 | leases, events, get on each referenced secret, and on all secrets exactly when a name is a template |
| Rbac.MainRuntimeRules | pkg/catalog/generate_rbac.go:403-423 | for each CRD with group and plural, or built in: the seven verbs on its plural and get, update and patch on its status, and no other permission |
| Rbac.TypedRulesOf | pkg/catalog/generate_rbac.go:430-486 | hook, constructor, remote and watched resources of one CRD, the unresolvable ones skipped |
| Rbac.TypedRules | pkg/catalog/generate_rbac.go:428-487 | their union over the CRDs |
| Rbac.BuiltInRules | pkg/catalog/generate_rbac.go:492-503 | exactly the built-in kinds some CRD uses, with the verbs of the kind |
| Rbac.GenerateRuntimeRules | pkg/catalog/generate_rbac.go:358-511 | a permission is granted exactly when the system or some CRD needs it: leases, events, secrets by name or all of them; main and status, the resources of hooks, constructor, remote reconciler and watches, built-in kinds with escalate and bind on roles, custom entries, each with its verbs listed |
| Rbac.RuntimePermissions | pkg/catalog/generate_rbac.go:358-511 | the same for the permission sets themselves |
| Rbac.MainPermissions | pkg/catalog/generate_rbac.go:411-422 | seven verbs on the plural, get, update and patch on its status |
| Rbac.TypedPermissions | pkg/catalog/generate_rbac.go:430-486 | managing what hooks, constructor and remote reconciler name, reading what is watched, resolved resources only |
| Rbac.CustomPermissions | pkg/catalog/generate_rbac.go:851-883 | managing the lowercased kind with an s, in the group of the apiVersion, for each complete and well-formed entry |
| Rbac.ParseGroupIff | pkg/catalog/generate_rbac.go:866-869 | the group is what precedes the only slash, the core group without one, and nothing with two |
| Rbac.SystemPermissions | pkg/catalog/generate_rbac.go:361-398 | leases, events, and get on the secrets referred to, all of them for a name with a template |
| Rbac.EscalationPermissions | pkg/catalog/generate_rbac.go:36-41 | escalate and bind, for a used roles or clusterroles kind |
| Rbac.CaBundlePermission | pkg/catalog/generate_rbac.go:752-759 | patching the one definition object of the CRD |
| Rbac.CrdPermissions | pkg/catalog/generate_rbac.go:735-821 | the permissions attributed to one CRD, one by one |
| Rbac.PerCrdRules | pkg/catalog/generate_rbac.go:735-821 | a permission is granted exactly when the CRD needs it: main and status, patching its own definition, typed, built-in and custom resources, each with its verbs listed |
| Rbac.GeneratePerCrdRules | pkg/catalog/generate_rbac.go:731-827 | an entry for every enabled CRD with exactly the permissions it needs |
| Rbac.DetectedIsOwnPlusEscalation | pkg/catalog/generate_rbac.go:492-503 | the detected built-in permissions are those attributed to the CRDs plus escalate and bind where detected |
| Rbac.RuntimeMatchesAttribution | pkg/catalog/generate_rbac.go:358-511 | beyond the system rules the runtime permissions are the union of the per-CRD ones plus escalate and bind exactly where detected, once plurals are filled in as the defaults pass does |
| Rbac.CompareGenerators | pkg/catalog/generate_rbac.go:358-827 | running both generators on one Catalog gives permission sets in that relation |
| GatewayClusters.CrdRoutesToCluster | pkg/catalog/lookup.go:93-107 | true exactly when some entry of the serve block or its targets is a template or the cluster |
| GatewayClusters.Targets | pkg/catalog/generate_rbac.go:666-689 | the inline computation of static targets and the template flag decides the same routing |
| GatewayClusters.AppendTo | pkg/catalog/generate_rbac.go:698-702 | the pair is appended to exactly the listed clusters that are registered |
| GatewayClusters.DropEmpty | pkg/catalog/generate_rbac.go:708-712 | exactly the clusters without rules are removed |
| GatewayClusters.GenerateGatewayClusterRules | pkg/catalog/generate_rbac.go:635-715 | each registered cluster gets exactly one rule pair per CRD that routes to it, in order, and is a key of the result exactly when some CRD does; a permission is granted there exactly when some CRD that reaches it needs it |
| GatewayClusters.ClusterPermissions | pkg/catalog/generate_rbac.go:650-705 | six verbs on plural and status, get and list on the own definition object, for each CRD with an entry that names the cluster or has a template |
| GatewayClusters.PairPermissions | pkg/catalog/generate_rbac.go:651-664 | the permissions of one rule pair |
| GatewayClusters.TemplateKindsIff | pkg/catalog/generate_rbac.go:666-697 | the kinds listed are those with a template among their entries |
| GatewayClusters.BuildServeEnabledCrds | pkg/catalog/lookup.go:53-65 | exactly the serve-enabled CRDs, each once |
| GatewayClusters.ServeEnabledCrdsForCluster | pkg/catalog/lookup.go:75-90 | exactly the serve-enabled CRDs that route to the cluster, each once |
| GatewayClusters.PairsForNonEmpty | pkg/catalog/generate_rbac.go:708-712 | a cluster has rules exactly when some listed CRD routes to it |
| GatewayClusters.PairsPermuted | pkg/catalog/generate_rbac.go:650-705 | the order of the CRD list changes the order of the rules only |
| GatewayClusters.ClusterRulesMatchListing | pkg/catalog/generate_rbac.go:650-705 | the rules of a cluster are one pair for each CRD the Catalog lists for that cluster |
| GatewayClusters.CompareClusterViews | pkg/catalog/generate_rbac.go:635-715 | for a registered cluster, the generated rules and the Catalog's list are both empty or are one pair per listed CRD |
| HealthStats.RingStep | pkg/health/admission_stats.go:105-109 | one write keeps the ring a rotation of the last latencies, wrap-around included |
| HealthStats.SlotsHoldWindow | pkg/health/conversion_stats.go:101-113 | the used slots hold, as a multiset, exactly the last min(n, W) latencies |
| HealthStats.TracksStep | pkg/health/admission_stats.go:97-110 | total, maximum, minimum and ring stay functions of the recorded history |
| HealthStats.PercentileHasRank | pkg/health/admission_stats.go:221-226 | the reported percentile is an order statistic of the window: at most rank values are smaller, more than rank are not larger |
| HealthStats.RankIsUnique | pkg/health/admission_stats.go:221-226 | no other value has that rank |
| HealthStats.RankIsFloor | pkg/health/conversion_stats.go:120-123 | for a fraction below one the rank is the floor and the clamp is never used |
| HealthStats.NinetyFifth | pkg/health/conversion_stats.go:94 | at most nineteen in twenty values of the window are smaller than the reported percentile, and more than that are no greater |
| HealthStats.AverageIsTruncated | pkg/health/conversion_stats.go:89-91 | the reported average times the count misses the sum by less than the count, on the side of zero |
| HealthStats.MaxFieldMeaning | pkg/health/conversion_stats.go:52-54 | the reported maximum is the greatest latency, or zero when that is negative |
| HealthStats.MinRightIff | pkg/health/conversion_stats.go:55-57 | the reported minimum is the least latency if and only if a negative one was recorded, or no zero one, or the last one is zero |
| HealthStats.MinCanBeWrong | pkg/health/conversion_stats.go:55-57 | after 10, 0, 20 the reported minimum is 20, above the average |
| HealthStats.AverageAndPercentileWithinBounds | pkg/health/conversion_stats.go:89-94 | average, with Go's truncating division, and percentile lie between the extremes |
| HealthStats.PositiveDurationsAreOrdered | pkg/health/conversion_stats.go:77-97 | for positive durations min <= average <= max and min <= p95 <= max |
| HealthStats.CountsAddUp | pkg/health/admission_stats.go:23-31 | the outcome counters add up to the number of latencies |
| HealthTrackers.WindowSize | pkg/health/conversion_stats.go:33-36 | a window that is not positive becomes 1000, any other is kept |
| HealthTrackers.ConversionStats.constructor | pkg/health/conversion_stats.go:33-41 | an empty history over the window |
| HealthTrackers.ConversionStats.RecordSuccess | pkg/health/conversion_stats.go:44-65 | one success appended to the history, all fields following it |
| HealthTrackers.ConversionStats.RecordFailure | pkg/health/conversion_stats.go:68-74 | a failure is counted and leaves the latencies alone |
| HealthTrackers.ConversionStats.CalculatePercentile | pkg/health/conversion_stats.go:100-125 | the percentile of the last min(n, W) latencies, zero when there are none |
| HealthTrackers.ConversionStats.GetStats | pkg/health/conversion_stats.go:77-97 | the snapshot the recorded events determine |
| HealthTrackers.AdmissionStats.constructor | pkg/health/admission_stats.go:55-64 | two empty histories over separate rings |
| HealthTrackers.AdmissionStats.RecordValidationAllowed | pkg/health/admission_stats.go:69-75 | one allowed validation, the mutations untouched |
| HealthTrackers.AdmissionStats.RecordValidationDenied | pkg/health/admission_stats.go:78-84 | one denied validation, the mutations untouched |
| HealthTrackers.AdmissionStats.RecordValidationWarned | pkg/health/admission_stats.go:87-93 | one warned validation, the mutations untouched |
| HealthTrackers.AdmissionStats.RecordValidationLatency | pkg/health/admission_stats.go:97-110 | the latency fields follow the history |
| HealthTrackers.AdmissionStats.RecordMutationApplied | pkg/health/admission_stats.go:115-121 | one applied mutation, the validations untouched |
| HealthTrackers.AdmissionStats.RecordMutationSkipped | pkg/health/admission_stats.go:124-130 | one skipped mutation, the validations untouched |
| HealthTrackers.AdmissionStats.RecordMutationLatency | pkg/health/admission_stats.go:134-147 | the latency fields follow the history |
| HealthTrackers.AdmissionStats.RingPercentile | pkg/health/admission_stats.go:211-227 | the percentile of the last min(n, W) latencies of the ring passed in |
| HealthTrackers.AdmissionStats.GetStats | pkg/health/admission_stats.go:176-206 | the snapshot the two recorded histories determine |
| HealthTrackers.TotalsAddUp | pkg/health/admission_stats.go:23-31 | each total is the sum of its outcome counters |
| HealthTrackers.ReportsNinetyFifth | pkg/health/admission_stats.go:196-203 | the percentile of the three reports is the ninety-fifth of the last min(n, W) latencies of their own side |
| HealthTrackers.ValidationCounted | pkg/health/admission_stats.go:69-93 | one more validation raises the total and the counter of its own outcome, and nothing of the mutations |
| HealthTrackers.MutationCounted | pkg/health/admission_stats.go:115-130 | one more mutation raises the total and the counter of its own outcome, and nothing of the validations |
| HealthTrackers.ConversionCounted | pkg/health/conversion_stats.go:44-74 | a conversion counts as a success, or as a failure that leaves the latencies alone |
| HealthTrackers.ReportsAggregates | pkg/health/admission_stats.go:176-206 | averages, maxima and the minimum in the reports are those of the latencies of their own side |
| HealthTrackers.CompareTrackers | pkg/health/admission_stats.go:208-210 | the two implementations report the same numbers for the same latencies, in order for positive ones, with totals adding up |
| EntryMerge.AppendNew | pkg/merger/merger.go:214-222 | the base list followed by what the other list adds, repeats inside the addition kept |
| EntryMerge.MergeTuning | pkg/merger/merger.go:156-173 | the four tuning values are overridden where positive or non-zero |
| EntryMerge.MergeLifecycle | pkg/merger/merger.go:262-286 | the five lifecycle blocks are overridden where declared |
| EntryMerge.MergeReconcile | pkg/merger/merger.go:156-286 | the reconcile block as a whole |
| EntryMerge.MergeProtection | pkg/merger/merger.go:176-194 | the three protection switches, each overridden where declared |
| EntryMerge.MergeRuntime | pkg/merger/merger.go:175-256 | protection overridden, the three lists extended, a missing runtime block created only when something is declared |
| EntryMerge.MergeAdmission | pkg/merger/merger.go:300-319 | validation, mutation and conversion replaced where declared |
| EntryMerge.MergeCrdEntry | pkg/merger/merger.go:134-327 | the merged entry, whose laws follow |
| EntryMerge.MergedAssociative | pkg/merger/merger.go:127-134 | layering is associative on every entry |
| EntryMerge.MergedIdempotent | pkg/merger/merger.go:127-134 | the same override applied twice is applied once |
| EntryMerge.LayersAsOne | pkg/merger/merger.go:127-134 | any number of overrides can be merged with one another first |
| EntryMerge.NamesOverride | pkg/merger/merger.go:139-206 | under any layers kind with its types, file, namespace and dependencies are those of the last layer that declares them |
| EntryMerge.TuningOverrides | pkg/merger/merger.go:155-173 | the tuning values are those of the last layer with a positive one, resync with a non-zero one |
| EntryMerge.LifecycleOverrides | pkg/merger/merger.go:259-286 | each lifecycle block is that of the last layer that declares it |
| EntryMerge.AdmissionOverrides | pkg/merger/merger.go:289-319 | each admission block and the status block is that of the last layer that declares it |
| EntryMerge.ProtectionOverrides | pkg/merger/merger.go:176-194 | each protection switch is that of the last layer that sets it |
| EntryMerge.LayersKeep | pkg/merger/merger.go:134-327 | name, description and version stay the base's, endpoints are those of the last layer that does not disable its own |
| EntryMerge.LayersKeepRest | pkg/merger/merger.go:134-327 | the undeclared parts of the nested blocks stay the base's, and are empty in a block that a layer created |
| EntryMerge.LayersOnlyTurnOff | pkg/merger/merger.go:147-152 | a layered entry is on exactly when its base and every layer are: no layer can switch on again |
| EntryMerge.LayersAndEndpoints | pkg/merger/merger.go:321-324 | the base's endpoints survive exactly when every layer disables its own, whose settings are then ignored |
| EntryMerge.EmptyLayerHarmlessIff | pkg/merger/merger.go:127-134 | a layer that declares nothing makes no difference if and only if the base has no endpoint settings or a later layer sets them |
| EntryMerge.LayersAreAdditive | pkg/merger/merger.go:208-256 | under any layers restricted and allowed namespaces and finalizers keep the base as a prefix and become the union of all |
| EntryMerge.MergeCatalogSecurity | pkg/merger/helper.go:29-47 | the five copied fields, override first |
| EntryMerge.SecurityAlgebra | pkg/merger/helper.go:29-47 | associative, idempotent, with the zero value as right identity, and as left identity exactly when no certificate manager is declared |
| StackMerge.SecurityRegroups | pkg/merger/helper.go:25-47 | security blocks can be accumulated in any grouping, and a run of blocks merged twice counts once |
| StackMerge.AddCrds | pkg/merger/file.go:250-260 | one import's CRDs are added, in any map order, exactly when none of its names is held under another label; otherwise the error names one that is |
| StackMerge.NoClashStep | pkg/merger/helper.go:58-66 | checking against the recorded labels is checking all pairs of imports |
| StackMerge.MergeEntryPoints | pkg/merger/merger.go:93-125 | merging the entry points succeeds exactly when no two files share a name, and gives each name its entry; otherwise the error names a shared one |
| StackMerge.Enabled | pkg/merger/merger.go:332-341 | exactly the entries that are not disabled |
| StackMerge.EntryOfLast | pkg/merger/file.go:250-260 | a name's entry is that of the last import that has it |
| StackMerge.OneImportPerName | pkg/merger/file.go:250-260 | without clashes between distinct labels every name has exactly one import and its entry |
| StackMerge.MergeProfiles | pkg/types/types_profiles.go:138-145 | profiles are appended exactly when none is in the receiver already |
| StackMerge.MergeImportNotes | pkg/types/types_notes.go:55-69 | notes are appended exactly when all names are new, within the import too |
| StackMerge.MergeNotes | pkg/types/types_notes.go:32-51 | the receiver's notes win silently, new names are appended once, and the include is dropped as soon as there is a source |
| StackMerge.StackNotesWin | pkg/types/types_notes.go:32-51 | a name stands for the Stack's own note, else for the first imported one; the include survives only without imported notes |
| StackMerge.UnseenNames | pkg/types/types_notes.go:32-51 | what is appended has just the new names, each once |
| StackMerge.ProfilesApartStep | pkg/merger/file.go:264-268 | checking against the accumulated profiles is checking all pairs of imports |
| StackMerge.ImportsStep | pkg/merger/file.go:244-279 | each import keeps the Stack combinable exactly when it passes the checks against what was gathered |
| StackMerge.GatherStep | pkg/merger/file.go:244-279 | the accumulators stay the fold of all imports so far |
| StackLoader.MergeNamespaces | pkg/types/ns_restricted.go:48-66 | the first occurrences of both lists, in order |
| StackLoader.InlineOne | pkg/merger/file.go:385-400 | an inline declaration is merged onto its import, or is new |
| StackLoader.Inline | pkg/merger/file.go:369-403 | all inline declarations, in any map order; refused exactly for an empty key or a name already recorded as inline, and for that reason |
| StackLoader.FillDescriptions | pkg/merger/file.go:404-418 | description and version fall back to the Stack's |
| StackLoader.ProtectAll | pkg/merger/file.go:420-434 | the Stack's namespace rules are merged into every entry, both lists when either is declared |
| StackLoader.PassesGiveEntries | pkg/merger/file.go:369-434 | the three passes give each name its merged, described and protected entry |
| StackLoader.Merger.Load | pkg/merger/file.go:200-216 | a catalog replaces the merger's settings, other loads leave them |
| StackLoader.Merger.ImportOne | pkg/merger/file.go:244-279 | one import, with the checks in the order of the code; the error is that of the first check that fails |
| StackLoader.Merger.ImportAll | pkg/merger/file.go:242-367 | all imports succeed exactly when all loads do, no two labels share a name, no profile and no note name repeats; otherwise the error is that of the first import that cannot be combined with those before it, for its reason |
| StackLoader.Merger.LoadStack | pkg/merger/file.go:222-490 | a Stack loads exactly when its imports combine, no inline key is empty, its profiles are new and it has no spec.imports; its entries and the merger's settings are then functions of the imports and the document, whatever the map order; otherwise the error gives the first reason in the order of the code |
| StackLoader.StackNames | pkg/merger/file.go:222-490 | the names are exactly those of the imports and the inline declarations |
| StackLoader.DescriptionFallsBack | pkg/merger/file.go:404-418 | description and version are the import's, for a new name the inline declaration's, and the Stack's only when those are empty |
| StackLoader.StackAddsOnly | pkg/merger/file.go:369-434 | apart from description, version and namespaces an entry is the import's with the inline declaration layered on it |
| StackLoader.StackSecurityOverrides | pkg/merger/file.go:263-462 | each security field is the Stack's own, or else that of the last settings in force that declare it |
| StackLoader.NoLayerTakesAway | pkg/merger/file.go:420-434 | namespaces and finalizers of an imported name are exactly the union of the import's, the inline declaration's and the Stack's |
| StackLoader.ImportsOkIff | pkg/merger/file.go:242-362 | imports combine exactly when all load, no two labels share a name, the settings they announce repeat no profile and no note name, and no later import without settings of its own finds profiles or notes of the import before it |
| StackLoader.NothingRepeated | pkg/merger/file.go:263-351 | when none does, the gathered profiles and notes are just those announced |
| StackLoader.StaleSecurityHarmless | pkg/merger/file.go:263-351 | the accumulated security block is what the imports gave, stale repeats adding nothing, on top of what an earlier load left when the first import gave nothing |
| StackLoader.FirstImportInherits | pkg/merger/file.go:263-362 | when the first import leaves the settings alone, the profiles, module imports and notes of the previous load come in first |
| StackLoader.CertManagerLost | pkg/merger/file.go:455 | no loaded Stack keeps a certificate manager |
| ForEach.ResolveForEachItems | pkg/children/foreach.go:574-606 | list items in order, map items by sorted key, nothing for anything else or a path through a non-map |
| ForEach.ItemsAsData | pkg/children/foreach.go:574-606 | the items in terms of what is found at the path: each list element, or each key of a map with its value in dictionary order |
| ForEach.ItemsUnique | pkg/children/foreach.go:592-602 | the items do not depend on the order the map is ranged over |
| ForEach.CollectKeys | pkg/children/foreach.go:593-597 | the keys sorted, each once |
| ForEach.MapItemsSorted | pkg/children/foreach.go:592-602 | one item per key, in strictly increasing order, with the key's value |
| ForEach.AnyHasForEach | pkg/children/foreach.go:633-640 | true exactly when some source has a forEach |
| ForEach.ExpandForEach | pkg/children/foreach.go:55-77 | the expansion is the flat-map of the sources, its fast path included |
| ForEach.Expanded | pkg/children/foreach.go:64-76 | as many copies as the item counts add up to |
| ForEach.NothingToExpand | pkg/children/foreach.go:61-63 | without a forEach the flat-map is the identity, so the fast path is right |
| ForEach.ExpansionKeepsOrder | pkg/children/foreach.go:64-76 | where in the result each source's copy for each item stands |
| ForEach.ExpansionIdempotent | pkg/children/foreach.go:52-54 | once resolve clears the forEach, expanding again changes nothing and takes the fast path |
| ForEach.ExpandStatefulSet | pkg/children/foreach.go:355-380 | every copy has its own name but shares the source's volume-claim slice, which ends as the claims rendered for all items in turn |
| ForEach.FirstItemWins | pkg/children/foreach.go:370-375 | rendered text having no templates left, the shared claims are those of the first item |
| ForEach.OwnClaimsIff | pkg/children/foreach.go:370-375 | a copy has the claims of its own item if and only if the first item renders every claim text alike |
| ForEach.SecondExpansionInherits | pkg/children/foreach.go:370-375 | a second expansion of the same source gets the claims of the first expansion's first item |
| ForEach.ExpandTwice | pkg/children/foreach.go:355-380 | the same on the shared slice of the source |
| ForEach.SecondCopyIsWrong | pkg/children/foreach.go:370-375 | two concrete items with different claims: the second copy gets the first one's |
| LabelPatch.LabelDiff | pkg/kubeclient/patches.go:86-96 | the two loops build the difference of the two maps |
| LabelPatch.DiffNamesWhatDiffers | pkg/kubeclient/patches.go:86-96 | the patch names exactly the keys that differ, except those to be added with an empty value |
| LabelPatch.PatchLabels | pkg/kubeclient/patches.go:70-122 | a patch is sent exactly when the difference is not empty |
| LabelPatch.PatchTouchesOnlyItsLabels | pkg/kubeclient/patches.go:101-104 | under section 2 of RFC 7396 nothing but the labels changes, and labels in neither map stay as they are |
| LabelPatch.PatchReachesDesiredIff | pkg/kubeclient/patches.go:62-69 | the server ends with the desired labels if and only if no key absent from the snapshot is to be added with an empty value |
| LabelPatch.PatchPersists | pkg/kubeclient/patches.go:86-122 | the server keeps exactly the desired labels that are not both new and empty |
| LabelPatch.EmptyLabelIsLost | pkg/kubeclient/patches.go:92-99 | a concrete empty label on an object without labels is never sent |
| LabelMaintenance.EnsureManagedLabel | pkg/labels/manager.go:66-77 | the ownership label is set; the result says whether the labels changed |
| LabelMaintenance.EnsureDeletionProtectionLabel | pkg/labels/manager.go:128-151 | the label is brought to its value or away; the result says whether the labels changed |
| LabelMaintenance.EnsureStrictModeExemptLabel | pkg/labels/manager.go:174-209 | likewise, inverted |
| LabelMaintenance.EnsureUserLabels | pkg/labels/manager.go:217-236 | the user's labels are written where the value differs, in any map order; the result says whether the labels changed |
| LabelMaintenance.EnsuresAreIdempotent | pkg/labels/manager.go:66-236 | a second call of any of them changes nothing |
| LabelMaintenance.MaintainLabels | pkg/runtime/coordinator/maintain/labels.go:33-68 | the in-memory labels after one reconcile |
| LabelMaintenance.ApplyLabels | pkg/runtime/coordinator/maintain/labels.go:27-72 | the server ends with the in-memory labels minus those added with an empty value, hence with all of them if and only if there is none; the rest of the object is untouched |
| LabelMaintenance.LabelsAsDeclared | pkg/runtime/coordinator/maintain/labels.go:33-68 | the labels on the server after one reconcile, key by key: protected exactly when the CRD is to be and no cleanup runs, exempt exactly when strict mode is off or suspended, user labels as given |
| LabelMaintenance.PersistedIff | pkg/runtime/coordinator/maintain/labels.go:58-72 | that fails exactly when a user label empties a system label that the server did not have |
| LabelMaintenance.ProtectionLeavesInTwoSteps | pkg/runtime/coordinator/maintain/labels.go:23-26 | on the server, the reconcile that drops the protection carries the exemption, and the next one takes it away |
| LabelMaintenance.LabelsSettle | pkg/runtime/coordinator/maintain/labels.go:27-72 | two reconciles bring the server, each starting from what it kept, to labels that a further one does not change, user labels on system keys included |
| LabelMaintenance.StoredAt | pkg/runtime/coordinator/maintain/labels.go:27-72 | what one reconcile makes of one label of the server |
| Finalizers.ContainsFinalizer | pkg/labels/manager.go:299-306 | true exactly for a listed finalizer |
| Finalizers.AddFinalizer | pkg/labels/manager.go:308-314 | appended exactly when missing, growing the slice like append |
| Finalizers.RemoveFinalizer | pkg/labels/manager.go:316-327 | the in-place compaction is the order-preserving filter, and reports whether the finalizer was present |
| Finalizers.EnsureFinalizers | pkg/labels/manager.go:331-338 | reports a change exactly when something was missing |
| Finalizers.StripFinalizers | pkg/labels/manager.go:342-349 | filters out all of them, and reports a change exactly when one was present |
| Finalizers.Ensured | pkg/labels/manager.go:331-338 | the old list stays a prefix, the elements become the union, no new repeats |
| Finalizers.EnsureThenStripRestoresIff | pkg/labels/manager.go:329-349 | stripping after ensuring restores the list exactly when it was disjoint from the wanted ones |
| CronNotes.CronToMap | pkg/note/cron.go:150-172 | a map is returned as it is; anything else gives the five fields, or stars |
| CronNotes.CronField | pkg/note/cron.go:72-88 | the field the map has under the matching key, and an error exactly for a bad position or field count |
| CronNotes.CronNormalize | pkg/note/cron.go:217-238 | the five fields joined by blanks |
| CronNotes.CronFromAny | pkg/note/cron.go:137-146 | map, string and default cases |
| CronNotes.StarBlanks | pkg/note/cron.go:230-235 | the loop changes nothing on the fields it is given |
| CronNotes.NormalizeIdempotent | pkg/note/cron.go:210-238 | normalizing twice is normalizing once, and leaves five fields |
| CronNotes.FromMapOfToMap | pkg/note/cron.go:150-208 | splitting an expression into a map and joining it gives the normalized expression, for every string |
| CronNotes.MapRoundTripIff | pkg/note/cron.go:150-208 | a map survives the trip through an expression if and only if it has the five keys and each value is one word |
| CronNotes.JoinedIsNoMacro | pkg/utils/cron.go:96-111 | five joined words are never taken for a macro |
| CronNotes.FieldsOfJoin | pkg/note/cron.go:95-100 | joined words split back into the same words |
| CronNotes.CompareViews | pkg/note/cron.go:72-238 | map, normal form and single fields of one expression agree |
| CronNotes.FieldsInOrder | pkg/note/cron.go:150-172 | five words are minute, hour, day of month, month and day of week |
| CronNotes.MacrosAsDocumented | pkg/utils/cron.go:96-111 | what each of the seven macros stands for, in any case and with blanks around it |
| CronNotes.MissingFieldsAreStars | pkg/note/cron.go:175-208 | a key that is missing or blank stands for every value |
| CronNotes.SpacesAsInUnicode | pkg/note/cron.go:95-100 | fields are separated by exactly the characters with the White_Space property |
| CronNotes.LowersAscii | pkg/utils/cron.go:97 | macros are recognised whatever the case of their letters |
| RedisCommand.SplitCommand | pkg/external/redis.go:94-115 | the loop computes the arguments of the scan, whose laws follow |
| RedisCommand.TokensAreClean | pkg/external/redis.go:94-115 | no argument is empty or contains a quote |
| RedisCommand.TokensKeepText | pkg/external/redis.go:94-115 | the arguments joined are the input minus quotes and unquoted spaces |
| RedisCommand.TokensOfTwo | pkg/external/redis.go:102-106 | a space after balanced text separates exactly |
| RedisCommand.SplitInvertsPrint | pkg/external/redis.go:92-94 | printing non-empty quote-free arguments, quoted or bare, and splitting gives them back |
| LookupIndexes.Catalog.BuildLookupIndexes | pkg/catalog/lookup.go:23-49 | the seven indexes are what filing the enabled CRDs in some order of the map leaves in them |
| LookupIndexes.FiledInIsIndex | pkg/catalog/lookup.go:23-49 | in every order each index leads every filed key, and no other, to a CRD filed under it |
| LookupIndexes.LastWins | pkg/catalog/lookup.go:32-48 | any CRD can be ranged over last, and then its keys lead to it |
| LookupIndexes.Catalog.LookupByKind | pkg/catalog/lookup.go:115-126 | finds a CRD exactly when a search for the trimmed, lowercased kind would, and a matching one |
| LookupIndexes.Catalog.LookupByName | pkg/catalog/lookup.go:130-141 | likewise by name |
| LookupIndexes.Catalog.LookupByPlural | pkg/catalog/lookup.go:161-172 | likewise by plural, where one is set |
| LookupIndexes.Catalog.LookupByGvkString | pkg/catalog/lookup.go:191-202 | likewise by GVK |
| LookupIndexes.Catalog.LookupByGvrString | pkg/catalog/lookup.go:206-217 | likewise by GVR |
| LookupIndexes.Catalog.LookupByTarget | pkg/catalog/lookup.go:221-232 | likewise by target, where there is one |
| LookupIndexes.Catalog.LookupByTargetOrKind | pkg/catalog/lookup.go:236-242 | a matching target if there is one, else a matching kind |
| LookupIndexes.Catalog.LookupByApiVersionAndKind | pkg/catalog/lookup.go:176-187 | a search by the concatenation; by both parts when nothing collides with the query |
| LookupIndexes.FindsUnique | pkg/catalog/lookup.go:115-217 | with at most one CRD under a key the answer does not depend on the map order |
| LookupIndexes.PairLookupRightIff | pkg/catalog/lookup.go:34-37 | the lookup by apiVersion and kind is right for every map order if and only if nothing collides with the query |
| LookupIndexes.PairsCanCollide | pkg/catalog/lookup.go:34-37 | two different pairs with one concatenation |

## Left out

- IntentRouting.Resource.RouteFields: spec, labels and annotations are values, so two submitted maps that share storage are not modelled; neither is the message that joins the collected errors.
- IntentRouting.Route: name and namespace resolution after routing (pkg/intent/build.go:192-) is not modelled.
- DependencyGraphs.DependencyGraph.StartupOrder: the process exit on an error is a failure value, and `sync.Once` is a flag, so concurrent first calls are not modelled.
- EventRecorder.ShutdownCanAlwaysFlush: states that a finishing run exists; fairness of the Go scheduler is not modelled, nor a second Shutdown call.
- ExternalCalls.Run: metrics and logging are left out; the cache is accessed by one run at a time, and the clock is any function from the number of its readings that does not go back.
- CachedRuns.CacheInvisibleIff: a backend's answer does not change over time, a fetch being a function of the call and what is sent; the runs share one gvk, other kinds having other keys (ExternalCalls.CacheKeyInjective).
- CachedRuns.CachedRunIs: describes the cached run for backends that look at nothing but the key; for all others ExternalCalls.AgreesUntil says how far it goes as the uncached one.
- RoutingOrders.AlwaysFailsIff: when maps are written a circle need not fail, and no condition on the paths is given for that case.
- Rbac.RuntimeMatchesAttribution: assumes that built-in kinds have a plural, which pkg/catalog/prepare.go:110-113 fills in before rules are generated.
- Rbac.GenerateRuntimeRules: the secret references are given as lists; collecting them from the lifecycle blocks is a walk over fields.
- HealthTrackers.ConversionStats.GetStats: durations are unbounded integers, so overflow of the int64 total is not modelled; the read-write lock is left out, each method being one critical section.
- HealthTrackers.AdmissionStats.GetStats: the conversion to floating-point milliseconds is left out, and so is the rounding of the product of window size and fraction, which is a real number here.
- EntryMerge.MergeCrdEntry: entries are values, so the base's nested blocks, which the code shares with the result and changes in place, are not seen changing; blocks that are only copied or replaced whole are opaque texts.
- StackLoader.Merger.LoadStack: gateway, publish, lifecycle and policy blocks (last declaration wins) and the merger's state after a failed load are left out; an import's outcome is given instead of fetched and parsed.
- StackMerge.MergeProfiles: the registry's classes are one list keyed by class and name, so which of several conflicts is reported is not modelled.
- ForEach.ExpandForEach: resolve is a pure function; the StatefulSet source, which writes through a slice shared by all its copies, is modelled apart by ForEach.ExpandStatefulSet, with the texts of its claims in one array.
- LabelMaintenance.ApplyLabels: the annotation half of the method and a failing patch are left out.
- CronNotes.CronToMap: values are taken as they print; the JSON sentinel form and cronDescribe are left out.
- RedisCommand.SplitCommand: works on characters, so the replacement of invalid UTF-8 by Go's range loop is not modelled.
- LookupIndexes.Catalog.BuildLookupIndexes: lowercasing and trimming are given functions; only the lookup by two parts needs one of their properties, that lowercasing works rune by rune.
- Kubernetes clients, informers, REST mapping, protocol clients, template and condition evaluation: foreign code, represented by parameters.
- GenerateRBACRules and GenerateGatewayRBACRules: further lists of the same kind of rule, built the same way.
- Children enrichment, built-in registry tables, document generators, console and process wiring: field reads and fixed tables.
