# Kube Aliyun in Dafny

A model of the cloud provider of kube-aliyun: the load-balancer reconciler, the disk attach/detach
protocol, node lookup and routes, the disk provisioner, and the struct/map codec. Each component drives
a remote state through atomic API calls that can fail; the proofs are about what every call sequence
keeps, what every history of attempts reaches, and exactly when an operation does what it is for.

## How the cloud is modelled

- Every API call has a number, and a fault schedule `fate` gives its fate: `Delivered`; `Rejected` (no
  effect, the caller sees an error); `Lost` (it takes effect, and the caller still sees an error). The
  schedule is arbitrary in every theorem unless the theorem says `Clean`, which means that the calls of
  that operation were all delivered.
- Assumed of the API: a listener port carries one listener; creating needs a free port and leaves the
  listener stopped; starting and deleting need the listener. AttachDisk takes effect only on an available
  disk, DetachDisk only on a disk in use by the named instance; attaching and detaching disks settle. A
  route destination has at most one entry. New ids are never reused. Page numbers start at 1 and page 0
  is the first page.
- A created balancer is listed from some later call on (`lag`); `Prompt` means at once.
- The service logs every mutating listener call that takes effect, in order, and counts all that are made
  (`log`, `tried`); what is said about the calls of an operation is said about these.
- Remote state and loops are classes and methods; each method is tied to a specification function or
  relation, and the theorems are about those.

| module | part of the system |
|---|---|
| `Listeners` | listener tables, the calls on them, the theory of the listener sync |
| `Balancers`, `LoadBalancers`, `BalancerRuns` | balancers as values, the service and provider operations, whole histories |
| `Names` | balancer names |
| `DiskProtocol`, `Volumes` | Attach and Detach interleaving at API calls; the volume operations one at a time |
| `Devices`, `Paths` | device names, paged search, `path.Base` |
| `Instances`, `Routes`, `RouteRuns` | node names, lookups, the route table, whole runs on it |
| `Provisioner` | sizes and the disk ledger |
| `Codec`, `Decimal`, `Text`, `Basics` | struct/map codec, decimal text, lower-casing, shared values |

## What the proofs found

- The node lookup behind both balancer operations narrows its own inventory in a loop. It does what was
  meant exactly under the condition of `NarrowedMeetsIntent`; for nodes on two different instances it
  always fails (`TwoOwnersFail`), and then EnsureLoadBalancer changes nothing and UpdateLoadBalancer
  changes only listeners.
- A sync can only succeed for a service with at most one listener per port, since a port carries one
  listener; TCP and UDP on one port number always fail. For an accepted service this is the exact
  condition (`AcceptableSyncable`).
- An Attach can return success although the disk has meanwhile been taken away, by a Detach or by an Attach
  for another instance (`StaleReturnHappens`); `StaleAttachExactly` says exactly when.
- When listings lag behind creation, a second Ensure makes a second balancer of the same name
  (`SlowListingsDuplicate`), and a delete reports success without deleting. Both do what they are for
  exactly when the listing shows the service's balancer if there is one (`EnsureLoadBalancer`,
  `EnsureLoadBalancerDeleted`).
- Names keep 31 of the 32 hex digits of a UID, so UIDs that differ in the last character share a name.
- A failed Provision leaves a disk behind exactly when the reply to its create call was lost.
- A positive storage request that overflows 64 bits at gigabyte scale gets the category minimum or a wrapped
  product, never enough, since the overflow flag is ignored (`OverflowedSize`); otherwise the size is the
  right one (`DiskSize`).
- The device name conversions are inverse exactly when the other form's prefix does not come first in
  the name.

Where the code and its comments differ the code is followed: `getLBListenerAttributes` uses a nil
response after a failed read, which would panic, and the model reports the read as failed, with no
change to the cloud either way; an instance without private address makes `ListRoutes` panic, reported
here as `NoAddress`.

## Model

| member | source | states |
|---|---|---|
| Listeners.KeyTextFaithful | pkg/cloudprovider/providers/aliyun/loadbalancer.go:229-237 | the textual key "port\|protocol" identifies port and lower-cased protocol, both directions |
| Text.ToLowerExactly | pkg/cloudprovider/providers/aliyun/loadbalancer.go:205-237 | lower-casing turns the letters A to Z into a to z and changes nothing else |
| Listeners.ExpectedIsLast | pkg/cloudprovider/providers/aliyun/loadbalancer.go:232-238 | a key is expected exactly when a port with a node port has it, and then stands for the last such port |
| Listeners.StartStep | pkg/cloudprovider/providers/aliyun/loadbalancer.go:268-276 | starting a listener takes its port off the idle ones and touches no other work |
| Listeners.DeleteStep | pkg/cloudprovider/providers/aliyun/loadbalancer.go:278-286 | deleting a wrong listener takes its port off the wrong ones and touches no other work |
| Listeners.CreateStep | pkg/cloudprovider/providers/aliyun/loadbalancer.go:288-326 | creating a desired listener on a free port turns a missing key into an idle port and touches no other work |
| Listeners.UsefulCallLowersWeight | pkg/cloudprovider/providers/aliyun/loadbalancer.go:268-334 | each call the sync may make is accepted by the cloud and lowers the weight (1 per wrong, 2 per missing, 1 per stopped matching listener) by exactly one |
| Listeners.RunSpendsWeight | pkg/cloudprovider/providers/aliyun/loadbalancer.go:228-337 | the calls of any useful run and the weight left add up to the first weight |
| Listeners.RunsCompose | pkg/cloudprovider/providers/aliyun/loadbalancer.go:228-337 | a useful run continued by another is a useful run |
| Listeners.AttemptsAreBounded | pkg/cloudprovider/providers/aliyun/loadbalancer.go:228-337 | any sequence of attempts, each cut at an arbitrary call, makes together exactly first weight minus last weight calls, and is one useful run |
| Listeners.WeightlessIffConverged | pkg/cloudprovider/providers/aliyun/loadbalancer.go:240-267 | weight zero means exactly the desired listeners, none stopped, both directions |
| Listeners.ConvergedNeedsNoCall | pkg/cloudprovider/providers/aliyun/loadbalancer.go:228-337 | on a converged table there is no useful call, so every run of them is empty |
| Listeners.ConvergedImpliesDistinctPorts | pkg/cloudprovider/providers/aliyun/loadbalancer.go:289-333 | only desires with one listener per port can be reached |
| Listeners.SyncedConverges | pkg/cloudprovider/providers/aliyun/loadbalancer.go:228-337 | the final table of a sync has exactly the desired listeners, none stopped |
| Listeners.SyncedFixpoint | pkg/cloudprovider/providers/aliyun/loadbalancer.go:228-337 | a converged table is its own final table |
| Listeners.UsefulCallKeepsGoal | pkg/cloudprovider/providers/aliyun/loadbalancer.go:268-334 | no call of the sync changes the final table it heads for |
| Listeners.RunKeepsGoal | pkg/cloudprovider/providers/aliyun/loadbalancer.go:268-334 | neither does any run of them |
| Listeners.Confluence | pkg/cloudprovider/providers/aliyun/loadbalancer.go:228-337 | every history of useful calls that ends converged ends in the same table, whatever the order of the expected map and wherever earlier attempts were cut |
| Listeners.MatchedStays | pkg/cloudprovider/providers/aliyun/loadbalancer.go:243-286 | a listener that already matches keeps serving in every intermediate state and is never deleted; one that is running is not touched |
| Listeners.AnyCallLowersWeightAtMostOne | pkg/cloudprovider/providers/aliyun/loadbalancer.go:228-337 | no API call whatever lowers the weight by more than one |
| Listeners.NoSyncIsCheaper | pkg/cloudprovider/providers/aliyun/loadbalancer.go:228-337 | no sequence of API calls whatever converges a table in fewer calls than its weight, which is what a sync makes |
| Balancers.AcceptableSyncable | pkg/cloudprovider/providers/aliyun/loadbalancer.go:108-115 | for a service that passes the checks, a sync is possible exactly when no two expected listeners share a port |
| Balancers.OptionsMeaning | pkg/cloudprovider/providers/aliyun/loadbalancer.go:33-41 | the options are what the annotations say under the six named keys, in order, the numbers up to the first that does not parse; it and later ones are zero |
| Balancers.WantedIds | pkg/cloudprovider/providers/aliyun/loadbalancer.go:340-347 | the backends wanted are exactly the ids of the instances the node lookup gives |
| Balancers.BackendStagesAreSafe | pkg/cloudprovider/providers/aliyun/loadbalancer.go:364-378 | wherever a backend sync stops, wanted backends keep their weight, new ones weigh 100, nothing unwanted was added, and a later sync ends where an undisturbed one would have |
| Balancers.TowardsComposes | pkg/cloudprovider/providers/aliyun/loadbalancer.go:191-203 | two reconciliations of the same desire, each ended anywhere, are together one such, with the calls of both |
| Balancers.CreatedIsUnique | pkg/cloudprovider/providers/aliyun/loadbalancer.go:145-168 | finding or creating keeps names unique if the listing shows the balancer of the name when there is one; if a balancer is created whenever the listing shows none, only then |
| Balancers.EnsureIsOpStep | pkg/cloudprovider/providers/aliyun/loadbalancer.go:145-203 | finding or creating and then reconciling touches only balancers of the name and keeps names unique |
| LoadBalancers.Slb.GetListenerAttributes | pkg/cloudprovider/providers/aliyun/loadbalancer.go:205-226 | reads backend port and status of the listener; fails exactly for an unsupported protocol or a disturbed call |
| LoadBalancers.Slb.BuildExpected | pkg/cloudprovider/providers/aliyun/loadbalancer.go:232-238 | the loop builds the expected map |
| LoadBalancers.Slb.Diff | pkg/cloudprovider/providers/aliyun/loadbalancer.go:240-265 | the comparison loop finds exactly the idle ports, the wrong ports and the missing keys, changing nothing; it fails only for unreadable protocols or a disturbed read |
| LoadBalancers.Slb.StartAll | pkg/cloudprovider/providers/aliyun/loadbalancer.go:268-276 | starts every idle listener; the calls added to the log are useful ones, and at most one more is made, the failing one |
| LoadBalancers.Slb.DeleteAll | pkg/cloudprovider/providers/aliyun/loadbalancer.go:278-286 | deletes every wrong listener, with the same bound on the calls in the log |
| LoadBalancers.Slb.CreateOne | pkg/cloudprovider/providers/aliyun/loadbalancer.go:290-332 | creates and starts the listener of a missing key, by useful calls in the log; undisturbed it fails only for an unsupported protocol or a shared port |
| LoadBalancers.Slb.CreateAll | pkg/cloudprovider/providers/aliyun/loadbalancer.go:288-334 | in any order of the map, creates and starts every missing listener, ending converged, by useful calls in the log |
| LoadBalancers.Slb.EnsureListeners | pkg/cloudprovider/providers/aliyun/loadbalancer.go:228-337 | every call added to the log is useful, stopped listeners being started first, wrong ones deleted next and missing ones created last, no call follows a disturbed one, and only this balancer's listeners change; with the calls that fail, no more are made than the weight, and none on a converged table; success leaves the final table after exactly weight calls; undisturbed, it succeeds exactly when the desire can be carried |
| LoadBalancers.Slb.DiffBackends | pkg/cloudprovider/providers/aliyun/loadbalancer.go:340-362 | the loops find exactly the backends to remove and to add |
| LoadBalancers.Slb.EnsureBackends | pkg/cloudprovider/providers/aliyun/loadbalancer.go:339-381 | success, which comes exactly when undisturbed, leaves exactly the given instances as backends, known ones at their weight, new ones at 100; only backends change; nothing to change means no call |
| LoadBalancers.Slb.GetLoadBalancer | pkg/cloudprovider/providers/aliyun/loadbalancer.go:64-87 | reports a listed balancer of the name as it is, or that the listing shows none; fails exactly when disturbed |
| LoadBalancers.Slb.Poll | pkg/cloudprovider/providers/aliyun/loadbalancer.go:169-182 | looks at most three times, and a failed look does not end it; the answer is that of the last look; undisturbed, nothing is found exactly when none is listed at the third look |
| LoadBalancers.Slb.FindOrCreate | pkg/cloudprovider/providers/aliyun/loadbalancer.go:145-189 | finds the balancer or creates one blank balancer and looks for it three times unless it is found before; under any faults the answer is that of the last look; undisturbed, one is created exactly when the listing shows none, nothing is found exactly when none is listed up to the third poll, and names stay unique exactly when the listing shows the balancer of the name if there is one |
| LoadBalancers.Slb.Validate | pkg/cloudprovider/providers/aliyun/loadbalancer.go:103-119 | the checks accept exactly services without affinity and fixed address and with only TCP and UDP ports |
| LoadBalancers.Slb.ReadOptions | pkg/cloudprovider/providers/aliyun/loadbalancer.go:137-143 | the options used are those read up to the first annotation that does not parse |
| LoadBalancers.Slb.Reconcile | pkg/cloudprovider/providers/aliyun/loadbalancer.go:191-200 | listeners then backends: only this balancer moves, and the calls added to the log are the useful ones that moved it; success is full reconciliation and comes exactly when no call is disturbed and the desire can be carried |
| LoadBalancers.Slb.ReconcileFound | pkg/cloudprovider/providers/aliyun/loadbalancer.go:182-203 | nil exactly for a balancer still unlisted, an error for a failed search; a status means full reconciliation, and is given exactly for a found balancer when no call is disturbed and no two expected listeners share a port |
| LoadBalancers.Slb.EnsureLoadBalancer | pkg/cloudprovider/providers/aliyun/loadbalancer.go:99-203 | a refused service or failed node lookup changes nothing; otherwise only the service's balancer changes, the calls added to the log are the useful ones that moved it, and a returned status means full reconciliation; a nil answer comes only after three polls; undisturbed, it comes exactly when no balancer of the name is listed up to the third poll, a status is returned otherwise exactly when no two expected listeners share a port, and names stay unique exactly when the listing shows the service's balancer if there is one |
| LoadBalancers.Slb.ReconcileLate | pkg/cloudprovider/providers/aliyun/loadbalancer.go:393-418 | as Reconcile, with the node lookup between; a failed lookup leaves the backends alone |
| LoadBalancers.Slb.UpdateLoadBalancer | pkg/cloudprovider/providers/aliyun/loadbalancer.go:383-419 | an absent balancer is an error and changes nothing; otherwise only that balancer changes, by the useful calls added to the log, a failed node lookup has changed only listeners, and success is full reconciliation and comes exactly when no call is disturbed, the desire can be carried and the nodes resolve |
| LoadBalancers.Slb.EnsureLoadBalancerDeleted | pkg/cloudprovider/providers/aliyun/loadbalancer.go:421-434 | removes at most one balancer of the name and touches no other; succeeds exactly when no call is disturbed; after success on unique names none of the name is left exactly when the listing showed it if there was one |
| BalancerRuns.PartialAttemptsAreInvisible | pkg/cloudprovider/providers/aliyun/loadbalancer.go:191-203 | reconciling what any earlier attempt left gives what reconciling the original would have given |
| BalancerRuns.AttemptsAreInvisible | pkg/cloudprovider/providers/aliyun/loadbalancer.go:191-203 | after any number of such attempts a completed reconciliation leaves what it would have left of the original |
| BalancerRuns.ReconciledIsDone | pkg/cloudprovider/providers/aliyun/loadbalancer.go:191-203 | a reconciled balancer has no work left and reconciling it again changes nothing |
| BalancerRuns.EnsureRepeatedly | pkg/cloudprovider/providers/aliyun/loadbalancer.go:99-203 | any number of attempts under any faults, with prompt listings, add to the log at most as many listener calls as the weight of the balancer first found or created, all on it and useful, and make at most one more each; a status at the end means exactly that many and the balancer that reconciling the first one at once would have given; an undisturbed last attempt returns one exactly for an acceptable service whose nodes resolve and whose listeners share no port |
| BalancerRuns.RunOperations | pkg/cloudprovider/providers/aliyun/loadbalancer.go:99-434 | over any run of Ensure, Update and delete operations on any services, under any faults: whatever the lag, a name no operation concerns keeps its balancer, and a successful Ensure or Update holds, listeners and backends, until the next operation on its service; with prompt listings there is at most one balancer per name at every point, and a successful delete holds until the service is ensured again |
| BalancerRuns.SlowListingsDuplicate | pkg/cloudprovider/providers/aliyun/loadbalancer.go:145-189 | for every acceptable service whose nodes resolve, with lagging listings, two undisturbed Ensure calls make two balancers of one name, and neither reports an error |
| BalancerRuns.EnsureMeetsUpdate | pkg/cloudprovider/providers/aliyun/loadbalancer.go:99-203 | on equal accounts with the balancer present and listed, a successful Ensure and a successful Update leave equal accounts, and undisturbed both succeed under the same exact condition |
| Names.NameIsLegal | pkg/cloudprovider/providers/aliyun/loadbalancer.go:54-62 | every name is non-empty, dash-free and at most 32 long |
| Names.DashesRemoved | pkg/cloudprovider/providers/aliyun/loadbalancer.go:56 | dashes go, every other character stays, in order |
| Names.NameOf | pkg/cloudprovider/providers/aliyun/loadbalancer.go:54-62 | the name is an a and the first 31 characters of the UID without its dashes |
| Names.CanonicalDigits | pkg/cloudprovider/providers/aliyun/loadbalancer.go:56 | a canonical UID (section 3 of RFC 4122) without dashes is its 32 hex digits in order |
| Names.NamesCollide | pkg/cloudprovider/providers/aliyun/loadbalancer.go:54-62 | two canonical UIDs give the same name exactly when their first 31 hex digits agree, that is all but the last character |
| DiskProtocol.EvictHasRead | pkg/cloudprovider/providers/aliyun/volume.go:170-187 | in every interleaving, a call about to detach from n is an Attach for another instance that read the disk as in use by n |
| DiskProtocol.UnderwayHasRead | pkg/cloudprovider/providers/aliyun/volume.go:175-235 | in every interleaving, a call goes past its first read, up to success, only after a delivered read of its own |
| DiskProtocol.BindHasCause | pkg/cloudprovider/providers/aliyun/volume.go:175-202 | in every interleaving, a call about to attach has read the disk as not in use, or has detached it, in a delivered call |
| DiskProtocol.UnbindingHasCause | pkg/cloudprovider/providers/aliyun/volume.go:147-251 | in every interleaving, a disk that stops being bound to n was taken by a call that took effect, of a Detach naming n or an Attach for another instance that had read it as in use by n |
| DiskProtocol.AttachSuccessWasBound | pkg/cloudprovider/providers/aliyun/volume.go:170-212 | in every interleaving, an Attach that returns success had a moment in progress when the disk was bound to its instance |
| DiskProtocol.DetachSuccessWasUnbound | pkg/cloudprovider/providers/aliyun/volume.go:230-250 | in every interleaving, a Detach that returns success saw the disk available, detaching or bound elsewhere, or left it detaching |
| DiskProtocol.SuccessWasDelivered | pkg/cloudprovider/providers/aliyun/volume.go:147-251 | in every interleaving, a call returns success only by a delivered API call on an existing disk |
| DiskProtocol.LossHasCulprit | pkg/cloudprovider/providers/aliyun/volume.go:147-251 | a binding present at one moment and gone at a later one was taken by such a call in between, after which it did not come back |
| DiskProtocol.StaleAttachExactly | pkg/cloudprovider/providers/aliyun/volume.go:170-212 | in every interleaving, the disk is not bound when its Attach returns success exactly when such a call took it while the Attach was in progress and nothing bound it again |
| DiskProtocol.AttachCanReturnStale | pkg/cloudprovider/providers/aliyun/volume.go:204-211 | every behaviour in which an Attach is about to read its disk again, with the disk in use, can go on so that an entitled call, of either kind, takes the disk and the Attach returns success |
| DiskProtocol.StaleReturnHappens | pkg/cloudprovider/providers/aliyun/volume.go:147-251 | for every disk and instance and either kind of entitled call there is such a behaviour from the start |
| DiskProtocol.AttachResultIsAlone | pkg/cloudprovider/providers/aliyun/volume.go:170-211 | the written-out outcome of Attach is that of the Attach program run on its own, under every fault schedule |
| DiskProtocol.AloneIsBehaviour | pkg/cloudprovider/providers/aliyun/volume.go:170-211 | the program run on its own is one of the behaviours of the interleaving machine |
| DiskProtocol.DetachIsBehaviour | pkg/cloudprovider/providers/aliyun/volume.go:230-250 | the same for Detach |
| DiskProtocol.AttachExactly | pkg/cloudprovider/providers/aliyun/volume.go:175-211 | outcome, disk and number of calls of an Attach on its own for every disk state and fault schedule: a failed read, detach or attach ends it with an error and no further call, a failed wait does not |
| DiskProtocol.DetachExactly | pkg/cloudprovider/providers/aliyun/volume.go:230-250 | the same for Detach |
| DiskProtocol.AttachAloneBinds | pkg/cloudprovider/providers/aliyun/volume.go:147-212 | on its own, a successful Attach leaves the disk bound to its instance, whatever faults it met |
| DiskProtocol.AttachAloneQuiet | pkg/cloudprovider/providers/aliyun/volume.go:147-212 | undisturbed, Attach succeeds exactly on a disk not on its way and leaves it in use by its instance; a disk already there costs one read |
| DiskProtocol.DetachAloneQuiet | pkg/cloudprovider/providers/aliyun/volume.go:230-250 | undisturbed, Detach fails exactly on a disk still attaching to its instance; otherwise the disk is not bound to it; other instances' disks are left alone |
| Volumes.TargetExactly | pkg/cloudprovider/providers/aliyun/volume.go:147-161 | the instance is the configured one when no node is named, otherwise the one the node name resolves to, and none if its id is empty or the lookup fails |
| Volumes.Ecs.Attach | pkg/cloudprovider/providers/aliyun/volume.go:147-212 | result, disk state and number of calls are those of the Attach program, under every fault schedule; no target, no disk id or no such disk is an error without change |
| Volumes.Ecs.Detach | pkg/cloudprovider/providers/aliyun/volume.go:215-251 | the same for Detach on the disk named by the last part of the device name |
| Volumes.Ecs.GetVolumeName | pkg/cloudprovider/providers/aliyun/volume.go:316-325 | the name leads Detach back to the disk: on its own exactly when the disk id has no slash or is the root, at the end of every path exactly when it has none; it fails exactly without a disk id |
| Volumes.Ecs.IsAttached | pkg/cloudprovider/providers/aliyun/volume.go:327-358 | unsupported exactly without access keys; succeeds exactly when node and disk are found by delivered calls; attached exactly when the disk is in use by the node's instance |
| Volumes.LifeCycle | pkg/cloudprovider/providers/aliyun/volume.go:147-358 | attach, query here and elsewhere, attach again at the cost of one read and without change, detach by any name in which the disk is found, query: as promised, and on that disk only |
| Devices.ReplaceBack | pkg/cloudprovider/providers/aliyun/volume.go:74-80 | replacing one prefix by the other and back restores a name exactly when the other prefix does not come first |
| Devices.DeviceRoundTrips | pkg/cloudprovider/providers/aliyun/volume.go:74-80 | the exact condition for each direction of the device name conversion |
| Devices.DeviceForms | pkg/cloudprovider/providers/aliyun/volume.go:74-84 | on ordinary device names the conversions are inverse, and two names are the same device exactly when their suffixes are equal |
| Devices.SearchPages | pkg/cloudprovider/providers/aliyun/volume.go:111-141 | the paged loop ends and, undisturbed, is a linear search of all disks, whichever way the cloud numbers the first page; without a hit it reads every page of 50 once, or the first one twice |
| Devices.GetDiskByDevice | pkg/cloudprovider/providers/aliyun/volume.go:111-141 | undisturbed, the first disk naming the same device, an error exactly when there is none |
| Paths.BaseOfName | pkg/cloudprovider/providers/aliyun/volume.go:230 | a volume name is its own last part exactly when it has no slash or is the root |
| Paths.BaseOfPath | pkg/cloudprovider/providers/aliyun/volume.go:230 | a volume name without slash is the last part of any path ending in it |
| Paths.BaseNeedsPlainName | pkg/cloudprovider/providers/aliyun/volume.go:230 | and a name with a slash is not |
| Paths.BaseExactly | pkg/cloudprovider/providers/aliyun/volume.go:230 | the last part of a path, whatever comes before it and however many slashes after; slashes only are the root, the empty path is the dot |
| Instances.Filter | pkg/cloudprovider/providers/aliyun/utils.go:123-130 | the loop keeps the rows that satisfy the test, in order |
| Instances.FilteredOnly | pkg/cloudprovider/providers/aliyun/utils.go:123-130 | if one row alone satisfies the test, filtering leaves that row |
| Instances.FilteredSingle | pkg/cloudprovider/providers/aliyun/utils.go:123-130 | if filtering leaves one row, one row alone satisfies the test |
| Instances.ResolveOwner | pkg/cloudprovider/providers/aliyun/utils.go:54-80 | a name resolves exactly when one row answers to it, and then to that row |
| Instances.AddressLookup | pkg/cloudprovider/providers/aliyun/utils.go:54-147 | by address: any address of a row, not only the first, leads to that row if no other has it; not found exactly when no row has it, multiple exactly when two have |
| Instances.HostNameLookup | pkg/cloudprovider/providers/aliyun/utils.go:54-159 | by host name: the same; an unknown kind finds nothing |
| Instances.GetInstanceByNodeName | pkg/cloudprovider/providers/aliyun/utils.go:54-80 | resolves the name, or says that none or several rows answer |
| Instances.GetInstancesByNodeNames | pkg/cloudprovider/providers/aliyun/utils.go:82-112 | computes the narrowing lookup, errors included |
| Instances.NarrowedExactly | pkg/cloudprovider/providers/aliyun/utils.go:98-111 | it succeeds exactly when the list is empty or one row owns the first name and answers to every other, and returns that row once per name |
| Instances.EachResolvedExactly | pkg/cloudprovider/providers/aliyun/utils.go:82-112 | the lookup that was meant succeeds exactly when every name has one owner, and gives each name its owner |
| Instances.NarrowedMeetsIntent | pkg/cloudprovider/providers/aliyun/utils.go:82-112 | the exact condition under which the loop agrees with what was meant |
| Instances.RepeatedNameIsFine | pkg/cloudprovider/providers/aliyun/utils.go:82-112 | they agree on lists with at most one distinct name |
| Instances.TwoOwnersFail | pkg/cloudprovider/providers/aliyun/utils.go:98-103 | names on two instances resolve one by one, and the loop reports one of them missing |
| Routes.ListTable | pkg/cloudprovider/providers/aliyun/routes.go:50-71 | the inner loop lists one route per instance-hop entry whose instance is known exactly once |
| Routes.ListRoutes | pkg/cloudprovider/providers/aliyun/routes.go:29-75 | the listing of all tables in order, failed queries and the panic included |
| Routes.NameLeadsBack | pkg/cloudprovider/providers/aliyun/utils.go:44-80 | the node name of a row resolves exactly when no other row answers to it, and then to that row |
| Routes.ResolvedName | pkg/cloudprovider/providers/aliyun/utils.go:44-80 | a name that resolves is the node name of its instance, or one of its addresses, and then the node name is the first address |
| Routes.RouteTable.CreateRoute | pkg/cloudprovider/providers/aliyun/routes.go:97-114 | adds exactly an instance-hop entry for the node's instance, unless lookup or call fails |
| Routes.RouteTable.DeleteRoute | pkg/cloudprovider/providers/aliyun/routes.go:77-95 | removes exactly the entry of that destination and instance, unless lookup or call fails |
| Routes.CreatedIsListed | pkg/cloudprovider/providers/aliyun/routes.go:29-114 | a created entry, for an instance whose id is known once, is listed under the node name of its instance and the rest of the listing is unchanged |
| Routes.ListedHasEntry | pkg/cloudprovider/providers/aliyun/routes.go:49-72 | a listed route comes from an instance-hop entry, of the instance its target resolves to |
| Routes.ListedExactly | pkg/cloudprovider/providers/aliyun/routes.go:49-72 | a route is listed exactly when an instance-hop entry has its destination, one row alone has the entry's instance id, and the target is that row's first address or host name |
| Routes.DeletingListedRemovesIt | pkg/cloudprovider/providers/aliyun/routes.go:29-95 | deleting a listed route that resolves removes its own instance-hop entry and takes exactly that route off the listing |
| Routes.CreateThenDelete | pkg/cloudprovider/providers/aliyun/routes.go:77-114 | creating and deleting a route restores the table |
| RouteRuns.ForeignStays | pkg/cloudprovider/providers/aliyun/routes.go:77-114 | a creation, or the deletion of a listed route, leaves the entries with other hops as they were, in order |
| RouteRuns.DeletionKeepsForeignExactly | pkg/cloudprovider/providers/aliyun/routes.go:77-95 | a deletion that took effect keeps the entries with other hops exactly when the entry it finds by destination and instance has an instance hop |
| RouteRuns.RunRoutes | pkg/cloudprovider/providers/aliyun/routes.go:29-114 | over any run of creations and deletions, under any faults and while the inventory changes: destinations stay unique; over a stretch that deletes only listed routes the entries with other hops stay, in order; a successful creation stays, and is listed by every inventory that knows its instance, until a route to its destination is deleted; a successful deletion holds until one is created |
| Provisioner.NegativeScale | vendor/k8s.io/apimachinery/pkg/api/resource/math.go:170-203 | the digit-cutting loop with early exit is division rounded away from zero, for either sign |
| Provisioner.DividesBack | vendor/k8s.io/apimachinery/pkg/api/resource/math.go:92-101 | dividing the wrapped product back tells exactly whether it overflowed |
| Provisioner.PositiveScale | vendor/k8s.io/apimachinery/pkg/api/resource/math.go:144-168 | the product with the power of ten, or what is left of it on overflow; the flag tells exactly whether it fits |
| Provisioner.ScaledValue | vendor/k8s.io/apimachinery/pkg/api/resource/amount.go:95-101 | short of overflow, the least number of units that covers the quantity |
| Provisioner.Floor | pkg/cloudprovider/providers/aliyun/volume.go:389-397 | every size is at least 20 gigabytes for ephemeral_ssd, cloud_efficiency and cloud_ssd and 5 for every other category, and exactly that for a request that 5 gigabytes cover |
| Provisioner.DiskSize | pkg/cloudprovider/providers/aliyun/volume.go:385-398 | for a request that is not negative, the least whole number of gigabytes covering it and the category minimum, exactly when scaling does not overflow; for a negative one the minimum, exactly when what an overflow leaves is no more |
| Provisioner.OverflowedSize | pkg/cloudprovider/providers/aliyun/volume.go:385-398 | every positive request that overflows gets the category minimum, or for the powers written out the wrapped product if that is more, and the disk never covers it |
| Provisioner.HugeRequests | pkg/cloudprovider/providers/aliyun/volume.go:385-398 | 10000000000E gets 5 gigabytes, 20000000000E gets 1553255926290448384 |
| Provisioner.CategoryFromParameters | pkg/cloudprovider/providers/aliyun/volume.go:377-384 | the category is the diskCategory parameter, empty without one |
| Provisioner.Cloud.Check | pkg/cloudprovider/providers/aliyun/volume.go:361-384 | the checks accept exactly claims without selector, with ReadWriteOnce and with a category |
| Provisioner.Cloud.Provision | pkg/cloudprovider/providers/aliyun/volume.go:360-442 | a returned volume names its own new disk of its name and size, which is right exactly when the request scales; the ledger holds exactly the disks created and not deleted; a failure leaves a disk exactly when the create reply was lost |
| Provisioner.LostReplyOrphans | pkg/cloudprovider/providers/aliyun/volume.go:402-411 | for every claim that passes the checks, a lost create reply fails the call and leaves a disk that no volume names |
| Provisioner.Cloud.Delete | pkg/cloudprovider/providers/aliyun/volume.go:444-461 | removes exactly the named disk from the ledger; a volume without disk id is refused without change |
| Decimal.AtoiItoa | pkg/util/map_utils.go:61-62 | a printed integer parses back exactly when it fits 64 bits |
| Decimal.AtoiExactly | pkg/util/map_utils.go:61-62 | exactly an optional sign and digits of a value in range are accepted, and give that value |
| Decimal.AtoiForms | pkg/util/map_utils.go:61-62 | digits alone and after a plus give their value, after a minus its negative, exactly within the 64-bit range |
| Decimal.ItoaCanonical | pkg/util/map_utils.go:116 | a printed integer is a minus sign if negative and the digits of its value without leading zeros |
| Codec.ParsePrint | pkg/util/map_utils.go:60-74 | every printed int, bool and string parses back, a bool printed as true or false; a value of another kind does not |
| Codec.ParseExactly | pkg/util/map_utils.go:60-74 | which texts each kind accepts, and their values: numerals in range, twelve words for a bool, every text for a string |
| Codec.WrittenLookup | pkg/util/map_utils.go:106-117 | each tagged field is found under its key and no other key is touched |
| Codec.StructToMap | pkg/util/map_utils.go:84-120 | a nil map is an error; otherwise the fields are written in order into the map |
| Codec.MapToStruct | pkg/util/map_utils.go:23-82 | fields before the first entry that does not parse are taken over, that one and later ones keep their values; success means there was none; a nil map is an error without change |
| Codec.RoundTrip | pkg/util/map_utils.go:23-120 | writing into any map and reading into any struct of the type restores every tagged field, exactly when no tagged field is of an unreadable kind |

## Left out

- Client internals, HTTP, credentials, metadata and instance zones: foreign calls, present only as the assumed contracts above.
- One-page queries of instances and route tables: the returned list is taken as the whole.
- Mounting, unmounting and WaitForAttach: file-system work and a thin wait.
- Controllers, leader election, command line and JSON output: plumbing.
- Address of the balancer in the returned status: the status is identified by the balancer id.
- Charge type and bandwidth of a new balancer: given at creation and never compared.
- Wall-clock sleeps: only the number of polls is kept.
- MapCopy, MapEqual, float fields and reflection errors of the codec: no hard property.
- Text.ToLower: lower-cases ASCII letters only.
- Listeners.KeyTextFaithful: port numbers are unbounded integers, so 32-bit truncation of a reported backend port is not modelled.
- Provisioner.ScaledValue: amounts that need arbitrary-precision decimals are not modelled, only those held in 64 bits.
- LoadBalancers.Slb.GetListenerAttributes: the panic after a failed read is reported as a failed read.
- DiskProtocol.UnbindingHasCause: disks being created or reinitialised are not modelled, nor an attachment the cloud abandons on its own.
