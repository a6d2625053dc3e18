# channelz: a Dafny model

This project models the logic behind the pages of the `channelz` package: how the subchannels
of a channel are fetched and indexed, how a cluster page joins them with an xDS dump, how message
types are resolved through the target's reflection service, and how the handler keeps its
connection. It proves properties of that model with Dafny 4.11
(`dafny verify dfyconfig.toml`).

## Layout

| file | models |
|---|---|
| `Prelude.dfy` | `Option`, Go's integer widths and wrap-around, what `sort.Slice` and a map iteration promise |
| `HostPort.dfy` | printing `host:port`, `net.SplitHostPort` and `strconv.ParseUint` as the standard library defines them |
| `Xds.dfy` | the dump's resources and their index (`newXdsResources`) |
| `Subchannels.dfy` | the two maps of `subchannelsByAddress`, and sums over subchannels |
| `WorkerPool.dfy` | the fan-out of `subchannelsByAddress` as a transition system |
| `Pools.dfy` | `pool-page.go` |
| `ClusterPage.dfy`, `ClusterTheorems.dfy` | `getXdsCluster` as loops, and what holds across pages |
| `Registry.dfy` | linking files into the two registries |
| `Reflection.dfy` | `reflectionResolver` as a class, one goroutine at a time |
| `RegistryRaces.dfy`, `RegistryTermination.dfy`, `RegistryTransparency.dfy`, `RegistryCycles.dfy` | the same code with any number of goroutines interleaving between its critical sections |
| `Transport.dfy` | `call` and `roundTrip` with any number of concurrent calls |
| `Connection.dfy` | `client.go`: the critical sections as a class, and all their interleavings |
| `XdsTarget.dfy`, `LbPolicy.dfy`, `VirtualHosts.dfy` | targets, policy names, the virtual-host listing |

Code that updates state is modelled by methods with loops or by classes; a method's contract ties
its result to a predicate or a function of the inputs, and the lemmas are about those. Goroutines
are modelled by transition systems whose actions are the critical sections, channel operations and
RPCs of the code; every claim about "a run" quantifies over all schedules and all lengths.

## Hypotheses

The code does not enforce these; a lemma that needs one states it.

- *Distinct ids*: no two subchannel responses carry the same id (`DistinctIds`, `DistinctAnswers`).
  The id is taken from the response. `InverseExactlyWhenDistinct` shows that the index is right
  exactly then.
- *Readable endpoints*: `Accountable` is the exact condition under which a cluster's page has the
  right orphans: socket addresses on all endpoints and, for a DNS cluster, a non-zero port on a host
  that splits again (or an address that also stands in EDS).
- *Distinct endpoint addresses* for the conservation of calls; again exact.
- *No import cycle*: a bound on the actions of a lookup needs it (`Ranked`, or `Acyclic`), and so
  does the class in `Reflection.dfy`, whose recursion must end. `EndsExactlyWithoutCycles` shows
  that the hypothesis is exact. Nothing else about the interleaved code needs it.
- *A fault-free target* links (`LinkConsistent`: imports are served and no two files conflict) and
  answers completely; that the answer a goroutine gets is to its own question is proved
  (`AnswersReachTheirQuestions`).
- A gRPC stream whose `Send` or `Recv` has failed stays failed, and a reflection server answers the
  requests of one stream in order.

## Where the code falls short of what one would expect

- `formatSocketAddress` does not bracket IPv6 hosts, so their port is lost when the printed target
  is read back (`HostPort.Ipv6LosesPort`, exact condition in `HostPort.PortSurvivesExactly`). A DNS
  cluster with such an endpoint hides a subchannel from its own orphan list that the page of every
  accountable cluster lists (`ClusterTheorems.UnaccountableHidesOrphan`).
- An address that is configured twice is counted twice in the locality totals, once in the pools
  (`ClusterTheorems.ConservedExactlyWhenDistinct`).
- `connect` can return a nil stub without an error when another request's dial fails in between
  (`Connection.NilStubWithoutError`); `connectCSDS` does so on a handler with only the channelz
  client injected (`Connection.InjectedNeverChanges`).
- A reflection stream that breaks after it was shared is replaced only by a call that was already
  on its way when it broke: one that is opening a stream, holds an answer it has yet to publish, or
  is on another stream that still lives. When there is none, no call on the resolver ever succeeds
  again, and only a new connection helps; otherwise some call still can
  (`Transport.StrandedExactly`, `Transport.DeathStrandsExactly`; reached in
  `Transport.StrandedReached`).
- Over a target with an import cycle, a lookup that meets the cycle recurses for ever. Lookups are
  bounded if and only if there is no cycle (`RegistryCycles.EndsExactlyWithoutCycles`), and a
  message whose file leads into one can never be resolved (`RegistryCycles.CyclicLookupNeverEnds`).
- A virtual-host page can show a dial-time section although it reports that nothing matches, for
  exactly the dumps described by `VirtualHosts.EmptyNameMisleads`: one host has an empty name and
  no other is preferred (`VirtualHosts.RoleAgreesExactly`, `VirtualHosts.EmptyNameExample`).

## Model

| member | source | states |
|---|---|---|
| `HostPort.PortRoundTrip` | `xds-cluster-page.go:107-117` | reading the port back from a printed address gives the port when the host splits again, and 0 otherwise |
| `HostPort.TargetPort` | `xds-cluster-page.go:107-117` | the port of any target, printed here or not: the decimal 32-bit number after a host that splits, else 0 |
| `HostPort.AddressExample` | `xds.go:112-117` | a printed address, digit by digit |
| `HostPort.PortSurvivesExactly` | `xds.go:112-117` | a port survives printing and parsing if and only if it is 0 or the host is plain or bracketed |
| `HostPort.Ipv6LosesPort` | `xds.go:116` | an unbracketed IPv6 literal loses its port |
| `HostPort.FormatInjective` | `xds.go:112-117` | different socket addresses never print alike, whatever their hosts contain |
| `HostPort.OnlyMissingIsEmpty` | `xds.go:112-125` | only a missing address prints as "", and "" has no port |
| `Xds.NewXdsResources` | `xds.go:70-108` | each map holds, for each name, the last config of its type that decodes, and nothing else |
| `Xds.ResourcesUnique` | `xds.go:70-108` | that description determines the maps |
| `Xds.VirtualHostsByType` | `xds.go:85-91` | a name is among the virtual hosts if and only if a config with their type URL decodes under it |
| `Xds.ClustersByType` | `xds.go:92-98` | the same for clusters and their type URL |
| `Xds.AssignmentsByType` | `xds.go:99-105` | the same for EDS resources and their type URL |
| `Subchannels.IndexResults` | `xds-cluster-page.go:427-437` | `info` is the last result of each id; `byAddr` has one class for each target, sorted, with the arrivals' ids as often as they came |
| `Subchannels.InfoOfValue` | `xds-cluster-page.go:431` | of several results with one id the last one stands |
| `Subchannels.InverseExactlyWhenDistinct` | `xds-cluster-page.go:427-437` | the maps are inverse to each other with strictly increasing non-empty classes if and only if no id was returned twice |
| `Subchannels.ArrivalOrderIrrelevant` | `xds-cluster-page.go:427-437` | with distinct ids both maps depend only on which results arrived |
| `Subchannels.SumCalls` | `pool-page.go:91-96` | adding one counter of the ids with int64 wrap-around gives the wrapped exact sum; which counter is which is in `Pools.RowAddsUp` |
| `WorkerPool.InvAlways` | `xds-cluster-page.go:380-433` | in every state of every schedule each reference is in exactly one place, the wait group counts the live workers, the closed flags agree with the goroutines, and once spawned there are as many workers as references, or 32 if that is less |
| `WorkerPool.SendsNeverBlockOrPanic` | `xds-cluster-page.go:390-425` | a worker with a result can always send it (`out` open, room left), and feeding `in` never blocks or meets a closed channel |
| `WorkerPool.FetchedAtMostOnce` | `xds-cluster-page.go:397-398` | no reference is fetched twice, none is invented |
| `WorkerPool.SomethingEnabled` | `xds-cluster-page.go:393-433` | no deadlock: until the call returns some goroutine can act, for any number of references, zero included |
| `WorkerPool.RunsAreFinite` | `xds-cluster-page.go:380-433` | every schedule ends within 5 steps a reference, 2 a worker, and 5 more |
| `WorkerPool.StuckMeansFinished` | `xds-cluster-page.go:426-433` | a schedule that cannot go on has returned |
| `WorkerPool.FinishedReceivesAll` | `xds-cluster-page.go:397-433` | at the end every reference has been fetched exactly once, and received exactly once if its RPC returned a subchannel, else never |
| `WorkerPool.ScheduleIndependent` | `xds-cluster-page.go:367-438` | with distinct answers the two maps are the same after every schedule, and inverse to each other |
| `WorkerPool.NothingLost` | `xds-cluster-page.go:367-438` | every returned subchannel is in `info` with its data and in the class of its target |
| `Pools.SubchannelPools` | `pool-page.go:82-105` | one row for each class of the index with its ids, count and wrapped sums, larger counts first, equal counts by address |
| `Pools.RowAddsUp` | `pool-page.go:91-96` | one more id adds its own started, succeeded and failed calls to the row's columns of the same name; a row of one id shows them |
| `Sorting.FirstDifferenceDecides` | `pool-page.go:100-105` | addresses compare by their first different byte, and a prefix comes first |
| `Pools.ChannelListingListsAll` | `pool-page.go:82-105` | over an inverse index the listing contains every subchannel in the pool of its target |
| `Pools.PoolListingUnique` | `pool-page.go:99-105` | a pool listing is determined by the subchannels it lists, so map order does not matter |
| `Pools.PoolMembers` | `pool-page.go:119-150` | the detail page lists, in id order, each id of the address's class that has info, as often as it stands there; with distinct ids exactly the subchannels aimed at the address |
| `Pools.NoMemberSkipped` | `pool-page.go:133-137` | over any index, repeated ids included, the `!ok` skip is unreachable |
| `Pools.ChannelListingDetermined` | `pool-page.go:82-105` | two computations of the pools page from the same maps agree, whatever the maps hold |
| `Pools.WholeClassesListing` | `xds-cluster-page.go:321-349` | a listing of whole address classes is the full listing cut down to those addresses, in the same order |
| `Pools.ListingSums` | `pool-page.go:91-96` | the columns of a listing add up to the calls of the subchannels listed, and its counts to their number |
| `ClusterPage.CollectPorts` | `xds-cluster-page.go:227-236` | exactly the non-zero ports of the endpoints |
| `ClusterPage.StrictDnsPorts` | `xds-cluster-page.go:88-104` | exactly the non-zero ports of DNS clusters' inline endpoints, in any iteration order |
| `ClusterPage.CollectSiblings` | `xds-cluster-page.go:287-296` | exactly the non-empty addresses of all EDS resources |
| `ClusterPage.MatchByPort` | `xds-cluster-page.go:238-245` | exactly the ids whose target's port is one of the ports |
| `ClusterPage.JoinLocalities` | `xds-cluster-page.go:246-276` | each locality's rows and wrapped totals, and the ids claimed by address |
| `ClusterPage.CollectUnmatched` | `xds-cluster-page.go:297-316` | exactly the ids that pass the three skips, with their names and targets, strictly by id |
| `ClusterPage.ClusterPools` | `xds-cluster-page.go:318-349` | the pool listing of the matched ids |
| `ClusterPage.JoinCluster` | `xds-cluster-page.go:212-350` | the whole page: kind, localities sorted by name, pools of the matched ids, orphans |
| `ClusterPage.GetXdsCluster` | `xds-cluster-page.go:177-351` | an error page exactly for a failed fetch or an unknown name, else the page of the named cluster of the indexed dump, and that page shows the cluster (next row) |
| `ClusterPage.PageShows` | `xds-cluster-page.go:202-349` | the EDS service is the one the cluster names, or the cluster's own name; the localities are those of the last decodable config of that service, or inline for STRICT_DNS and LOGICAL_DNS, each with its priority and weight and a row for every endpoint with its address, health, weight and class; pools, orphans and localities in their orders |
| `ClusterTheorems.OrphanListSameOnEveryPage` | `xds-cluster-page.go:282-316` | the orphan list is the same sequence on the pages of any two accountable clusters: the ids in no EDS resource and on no DNS port |
| `ClusterTheorems.EndpointAccountedFor` | `xds-cluster-page.go:225-309` | an endpoint is accountable if and only if its printed address is a sibling address or its printed port is a DNS port |
| `ClusterTheorems.OrphansRightExactlyWhenAccountable` | `xds-cluster-page.go:282-316` | a cluster's page has the right orphans for all subchannels if and only if the cluster is accountable |
| `ClusterTheorems.EdsOrphansRightExactly` | `xds-cluster-page.go:282-316` | for a cluster fed by EDS: if and only if all its endpoints have socket addresses |
| `ClusterTheorems.UnaccountableHidesOrphan` | `xds-cluster-page.go:282-316` | for any other cluster, a subchannel that no cluster claims and its page hides, while the page of every accountable cluster lists it |
| `ClusterTheorems.SubchannelsPartitioned` | `xds-cluster-page.go:238-343` | pool rows, orphans and exclusions are disjoint, make up all subchannels, and their sizes add up; pools do not overlap; what is excluded is exactly what has no pool row and a sibling's address or a DNS port |
| `ClusterTheorems.PoolLoopSkipsNothing` | `xds-cluster-page.go:323-326` | over any index, repeated ids included, no claimed id lacks info, so the `!ok` skip is unreachable |
| `ClusterTheorems.ListedExactlyWhenAccounted` | `xds-cluster-page.go:225-271` | a subchannel is in a pool row if and only if an endpoint of the cluster prints its target, or, for STRICT_DNS and LOGICAL_DNS, has the target's non-zero port |
| `ClusterTheorems.UnclaimedExactly` | `xds-cluster-page.go:287-307` | a subchannel is unclaimed if and only if no EDS endpoint prints its target and no inline endpoint of a STRICT_DNS or LOGICAL_DNS cluster has its port |
| `ClusterTheorems.MatchedWholeClasses` | `xds-cluster-page.go:238-271` | matching takes all or none of the subchannels of an address, by address and by port |
| `ClusterTheorems.ClusterPoolsRefineChannelPools` | `xds-cluster-page.go:318-349` | a cluster's pools are the rows of the channel's pools page at the matched addresses, unchanged and in order |
| `ClusterTheorems.EndpointRowMatchesPool` | `xds-cluster-page.go:261-270` | an endpoint row with a match shows the smallest id, the size and the calls of a pool row of the same page |
| `ClusterTheorems.PageTotals` | `xds-cluster-page.go:246-349` | each of the two tables in terms of the subchannels, modulo 2^64 |
| `ClusterTheorems.CallsConserved` | `xds-cluster-page.go:246-349` | for an EDS cluster with distinct addresses the locality totals and the pools add up to the same calls, also under wrap-around |
| `ClusterTheorems.ConservedExactlyWhenDistinct` | `xds-cluster-page.go:246-349` | the two tables of an EDS cluster's page agree for all subchannels if and only if no address is repeated |
| `ClusterTheorems.PageDetermined` | `xds-cluster-page.go:177-351` | two computations of one page agree on pools and orphans, and on localities up to ties |
| `ClusterTheorems.PageScheduleIndependent` | `xds-cluster-page.go:177-438` | from the RPC answers to the page: no schedule and no map order changes pools or orphans |
| `Registry.ClashExactly` | `xds_reflection_resolver.go:235-237` | two files conflict if and only if they share a package and a name declared in it, or one's package goes on from the other's with a name the other declares |
| `Registry.UnrelatedPackages` | `xds_reflection_resolver.go:235-237` | files of packages of which neither continues the other never conflict, whatever prefix they share |
| `Registry.NamesExactly` | `xds_reflection_resolver.go:242-248` | the message names of a file are its package followed by the paths of simple names to its messages, at every depth |
| `Registry.NoDupExactly` | `xds_reflection_resolver.go:231-234` | they are all different if and only if messages next to each other are |
| `Registry.RegistrableExactly` | `xds_reflection_resolver.go:231-237` | a new file is built and registered if and only if it links by itself, its imports are there, its messages differ and no registered file conflicts, all on names and packages |
| `Registry.CommonNameClashes` | `xds_reflection_resolver.go:235-239` | two files that share a message name at any depth conflict in the names RegisterFile checks |
| `Registry.NewFileNewNames` | `xds_reflection_resolver.go:242-248` | all message names of a file being registered are new, so the ignored RegisterMessage error never occurs |
| `Registry.CommitKeepsRegistry` | `xds_reflection_resolver.go:226-240` | registering a file keeps the registry closed under imports, free of conflicts, and its types equal to the nested messages of its files |
| `Registry.NoCycleRegistered` | `xds_reflection_resolver.go:194-240` | no file on an import cycle is ever registered |
| `Registry.AddNewTypes` | `xds_reflection_resolver.go:242-248` | registering names keeps the types that are there and adds each new one under its file |
| `Reflection.RegisterMessageTypes` | `xds_reflection_resolver.go:242-248` | the nested loops register every message below the prefix in order, keeping names that exist |
| `Reflection.ReflectionResolver.Call` | `xds_reflection_resolver.go:108-139` | nothing is sent once the target is unusable; else one request is sent, its descriptors are returned, and the target becomes unusable if and only if the status is Unimplemented |
| `Reflection.ReflectionResolver.RegisterLocked` | `xds_reflection_resolver.go:226-240` | success if and only if the file was there or is registrable, and if and only if it is there afterwards; on failure nothing changed |
| `Reflection.ReflectionResolver.RegisterFileDescriptor` | `xds_reflection_resolver.go:186-240` | terminates by import height; keeps the registry invariant on every path, errors included; on success the file is registered; the shared batch only grows; imports that the batch or the registry has are not fetched |
| `Reflection.ReflectionResolver.RegisterFileDescriptors` | `xds_reflection_resolver.go:166-181` | on success every file of the response is registered although the batch grows under the range; a complete response is registered without another request |
| `Reflection.ReflectionResolver.ResolveMessageType` | `xds_reflection_resolver.go:143-164` | a known name is answered from the cache without a request; a complete response of files that link costs one request and what it defines is found; with a fault-free target a name is found if and only if the target defines it, whatever is cached |
| `Reflection.ReflectionResolver.FindMessageByURL` | `xds_reflection_resolver.go:250-269` | for the message that the URL names: compiled types first, then reflection, then the empty message; a URL is logged only the first time |
| `Reflection.UrlNamesOne` | `xds_reflection_resolver.go:257-262` | every URL names exactly one message: the dotted name that stands alone or after any prefix and a slash |
| `Reflection.OneDefiner` | `xds_reflection_resolver.go:143-164` | a message has one defining file in a universe that links |
| `Reflection.ResolveTwice` | `xds_reflection_resolver.go:143-164` | two resolvers of one fault-free target with any two caches answer alike |
| `Reflection.ResolveAgain` | `xds_reflection_resolver.go:143-149` | a name once found is found again, in the same file and with no request, after any other lookups |
| `RegistryRaces.RegistryAlwaysOk` | `xds_reflection_resolver.go:143-248` | in every state of every interleaving, with any server: imports closed, no conflicts, types exactly the messages of the files |
| `RegistryRaces.SuccessRegistersTheBatch` | `xds_reflection_resolver.go:166-181` | a goroutine that succeeds has its whole first batch registered, under every interleaving |
| `RegistryRaces.KnownNameAnsweredAtOnce` | `xds_reflection_resolver.go:143-149` | once a name is among the types, every goroutine that starts to look it up later succeeds at its first step and asks nothing |
| `RegistryTermination.ResolutionsEnd` | `xds_reflection_resolver.go:143-240` | without import cycles a goroutine takes at most a number of actions fixed by what the target serves, whatever others do and whatever fails |
| `RegistryTermination.UnfinishedCanAct` | `xds_reflection_resolver.go:143-240` | the control state of a goroutine never gets stuck: until it has finished, one of its actions is enabled |
| `RegistryCycles.CyclicLookupNeverEnds` | `xds_reflection_resolver.go:186-240` | a goroutine that looks up a message whose file leads into an import cycle has neither succeeded nor failed in any state of any interleaving |
| `RegistryCycles.CanActFully` | `xds_reflection_resolver.go:143-240` | nor is it stuck: an unfinished goroutine has an action that a fault-free target lets it take |
| `RegistryCycles.EndsExactlyWithoutCycles` | `xds_reflection_resolver.go:143-240` | the lookups of a name over a fault-free target are bounded, under every interleaving, if and only if no file leads into an import cycle |
| `RegistryCycles.SelfImportRecursesForever` | `xds_reflection_resolver.go:186-224` | from a fresh resolver, a lookup over a file that imports itself reaches every depth of recursion |
| `RegistryTransparency.OutcomeIsTheUniverses` | `xds_reflection_resolver.go:143-164` | over a fault-free target, import cycles allowed, a goroutine that finishes has found its message if and only if the target defines it, under every interleaving |
| `RegistryTransparency.AnswersReachTheirQuestions` | `xds_reflection_resolver.go:86-139` | over the shared streams, whatever fails, a call that gets files gets the full answer to its own question, which is what a fault-free run presupposes |
| `Transport.OwnAnswer` | `xds_reflection_resolver.go:86-104` | a call that gets files gets the answer to its own request, on any stream, after any failures |
| `Transport.OneInside` | `xds_reflection_resolver.go:86-92` | at most one call is between lock and unlock of a stream |
| `Transport.SharedStreamHasServed` | `xds_reflection_resolver.go:135-138` | the shared stream has served a request |
| `Transport.NeverReset` | `xds_reflection_resolver.go:108-139` | `unusable` is never reset and `transport` never becomes nil again |
| `Transport.OnlyUnimplementedGivesUp` | `xds_reflection_resolver.go:125-133` | an Unimplemented status of a failed Send, a failed Recv or an error response, and nothing else, makes a call set `unusable` |
| `Transport.OnlyFailuresEndStreams` | `xds_reflection_resolver.go:86-104` | only a failed Send or Recv of the call that uses it ends a stream; an error response does not |
| `Transport.NoRequestOnceUnusable` | `xds_reflection_resolver.go:109-115` | a call that reads `unusable` as true never reaches a stream |
| `Transport.BrokenStreamNeverReplaced` | `xds_reflection_resolver.go:109-123` | once the shared stream is dead and no call is opening a stream, holds an answer or is on a live stream, no call ever succeeds again |
| `Transport.StrandedExactly` | `xds_reflection_resolver.go:86-139` | with a dead shared stream that condition holds if and only if no continuation has another successful call |
| `Transport.DeathStrandsExactly` | `xds_reflection_resolver.go:86-95` | a failed Send or Recv on the shared stream leads there if and only if no other call is opening a stream, holds an answer or is on another live stream |
| `Transport.StrandedReached` | `xds_reflection_resolver.go:86-139` | a run from a fresh resolver: one call succeeds, the next one's Send fails, and a third that has not begun can no longer succeed |
| `Connection.GrpcChannelzHandler.constructor` | `handler.go:50-57` | a fresh handler is valid and has no connection |
| `Connection.GrpcChannelzHandler.Dial` | `client.go:67-95` | keeps the handler valid; succeeds if and only if a connection is left, with both stubs bound to it; keeps a sound connection untouched; a broken one is closed and its resolver dropped, and the new connection is never the closed one |
| `Connection.GrpcChannelzHandler.ReadInjected` | `client.go:47-51` | a valid handler is never in injected mode |
| `Connection.GrpcChannelzHandler.ReflectionResolver` | `client.go:55-65` | keeps the handler valid; the resolver is bound to the current connection, nil if and only if there is none, and created once |
| `Connection.GrpcChannelzHandler.Connect` | `client.go:14-42` | alone, a request gets a stub of the current connection as soon as its own dial succeeds, and an error otherwise; an injected handler hands out what was set and stays as it is |
| `Connection.LifecycleAlways` | `client.go:14-95` | in every interleaving: connection and stubs all nil or all set, all bound to the current connection, every other connection closed, never in injected mode |
| `Connection.AtMostOneOpen` | `client.go:70-93` | at most one connection is open |
| `Connection.StubAtRead` | `client.go:14-42` | the stub handed out is the current connection's if the latest dial succeeded and nil if and only if it failed, and then it was another request's dial |
| `Connection.NoFailureNoNilStub` | `client.go:14-42` | in a run without a failed dial every stub handed out is the current connection's |
| `Connection.NilStubWithoutError` | `client.go:22-27` | an interleaving of two requests in which one gets a nil stub and no error |
| `Connection.InjectedNeverChanges` | `client.go:44-51` | an injected handler never dials or changes; each request gets the stub that was set, nil if it was not |
| `XdsTarget.PrintedReadsBack` | `xds.go:29-44` | the full form of a pair reads back as the pair if and only if the authority has no slash |
| `XdsTarget.NormalForm` | `xds.go:29-44` | every accepted target has a slash-free authority and denotes the same pair as its full form |
| `XdsTarget.ShortForms` | `xds.go:30-43` | `xds:r` and `xds:/r` denote the resource r, `xds://a` the authority a alone; other schemes are refused |
| `LbPolicy.LbPolicyShortName` | `xds-cluster-page.go:65-81` | the builder loop computes the snake-case form of the final segment |
| `LbPolicy.ShortNameDecodes` | `xds-cluster-page.go:62-81` | the short name of a CamelCase type is decoded back to it |
| `LbPolicy.ShortNameHasNoSmallLetter` | `xds-cluster-page.go:73-79` | a short name has no small letter |
| `LbPolicy.ShortNameInjective` | `xds-cluster-page.go:62-81` | so types that differ have different short names |
| `LbPolicy.FinalSegmentOfQualified` | `xds-cluster-page.go:66-72` | only what follows the last separator matters, be it a dot or a slash |
| `LbPolicy.SubsetShowsInner` | `xds-cluster-page.go:48-57` | a Subset message, by its type URL, shows its first inner policy, else SUBSET |
| `LbPolicy.DescribeExactly` | `xds-cluster-page.go:43-60` | the leaf's name shows if and only if it is not empty and at most five decodable wrappers enclose it; otherwise SUBSET, or nothing without a wrapper |
| `LbPolicy.LegacyShownWhen` | `xds-cluster-page.go:31-38` | exactly when the legacy enum is shown |
| `VirtualHosts.FindVirtualHostForChannel` | `xds-vhost-page.go:188-200` | the prefixed name, else the raw name, else some host with that name field, else none |
| `VirtualHosts.SortedKeys` | `xds-vhost-page.go:202-209` | the keys, each once, strictly ascending |
| `VirtualHosts.OtherChannels` | `xds-vhost-page.go:131-141` | each resource dialled by other channels, with the last such channel |
| `VirtualHosts.OrderNames` | `xds-vhost-page.go:144-147` | each key once, dial-time first if there is one, the rest strictly ascending |
| `VirtualHosts.GetXdsVirtualHost` | `xds-vhost-page.go:101-176` | exactly which of the three errors stops it; otherwise one section for each host of the dump in that order, no name twice, each fitting the channels and the host (next row) |
| `VirtualHosts.SectionFits` | `xds-vhost-page.go:131-159` | a section is dial-time by its name alone; any other is that of the last other xds channel whose target dials it, or call-time when none does; the authority is the name without its prefix, and domains are shown when they differ from it |
| `VirtualHosts.XdsVirtualHostDetail` | `xds-vhost-page.go:30-41` | the detail page shows the host of that name, with the same role and text, if and only if the dump has it, and an error if and only if it shows none or nothing matches the channel |
| `VirtualHosts.DialTimeRole` | `xds-vhost-page.go:154-159` | there is one dial-time section if the dial-time key is in the dump, none otherwise |
| `VirtualHosts.RoleAgreesExactly` | `xds-vhost-page.go:127-200` | some page for the resource contradicts itself about a dial-time section if and only if the dump has a host of empty name, lacks the prefixed name, and the resource is empty, or is no key while that host's name field matches or none does |
| `VirtualHosts.EmptyNameExample` | `xds-vhost-page.go:127-159` | such a dump and its page |

## Left out

- HTML, YAML, logs, timestamps, routing and hyperlinks: output only.
- The single-entity pages (channel, server, socket, subchannel, top channels): fetch and render.
- `clusterMaxConcurrentStreams`, `formatLocality`, `getHostFromBindAddress`: one-branch helpers; a locality is known by its printed name.
- Node, LB policy and EDS resource as shown on the cluster page: copied from the dump (the policy text is modelled on its own in `LbPolicy.dfy`).
- Route rows of a virtual host: rendered text of the routes, which the model keeps as they are.
- gRPC, protobuf decoding and `protodesc.NewFile`: a payload decodes or does not; a file links when it passes its own checks (`linkable`), its imports are registered and no message is declared twice. Weak imports and enum values in an enclosing scope are not told apart from other declarations.
- Contexts and cancellation: an RPC answers or fails.
- Strings are sequences of bytes written as `char`; `unicode.ToUpper` and `unicode.IsUpper` are modelled on ASCII.
- `-` and `+` on int64 counters wrap; ids are compared only, so their width does not matter.
- The class `Reflection.ReflectionResolver` runs one lookup at a time and does not model the stream; the interleavings are in `RegistryRaces.dfy` and the stream in `Transport.dfy`.
- The class `Reflection.ReflectionResolver` requires a ranked universe, because on an import cycle the recursion does not end; without that hypothesis see `RegistryRaces.RegistryAlwaysOk`, `RegistryTransparency.OutcomeIsTheUniverses` and `RegistryCycles.EndsExactlyWithoutCycles`.
- RegistryTermination.UnfinishedCanAct: each locked section is one atomic action and the mutexes are not in the state, so a deadlock between locks could not be expressed; no section takes a second lock.
- The batch map that `registerFileDescriptor` shares with its callers is passed in and out as a value; nothing else can see it.
