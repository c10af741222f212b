# Per-node bookkeeping of the YARN resource manager's scheduler

This project models `NodeManager`, the object the scheduler keeps for each
cluster node, and proves what it does with a node's containers and
resources. It models the following:

- **The ledger.** The node's total capability, and its available and used
  resources. Each resource is reduced to a memory amount (an `int`, which
  may go negative).
- **Two container maps, keyed by container id.** `allocatedContainers` holds
  containers the scheduler has assigned but the node has not yet confirmed.
  `activeContainers` holds containers the node has confirmed running.
- **The cleanup set** `containersToClean`, holding one entry per container id.
- **The list of finished applications.**
- **The container counter** `numContainers`.

The model is in four files:

- `records.dfy` (module `Records`) holds the value types. These are
  resources, container and application ids, containers with their reported
  state, the heartbeat response, and `Option` for a Java reference that may
  be null.
- `node_spec.dfy` (module `NodeSpec`) holds the node's state as a value
  (`NodeState`). It also has one function per operation that gives the state
  the operation leaves. These are `AllocateAll`, `ReconcileAll`, `Release`,
  `AddAvailable`, `DeductAvailable`, `Notify` and `Drain`. `Reconciled`
  states the whole effect of one heartbeat.
- `node_lemmas.dfy` (module `NodeLemmas`) proves the properties of those
  functions.
- `node_manager.dfy` (module `Scheduler`) holds the class `NodeManager`. It
  has the source's fields and methods. Every state-changing method is proved
  against the `NodeSpec` function for the same operation, through `State()`.

`Valid()` is the class invariant, `NodeSpec.Consistent`. Each method the
source makes public keeps it. Callers that change the resource records the
getters hand out are not modelled (see "Left out"). It has three parts:

- the ledger balances (`available + used == total`);
- every map holds each container under its own id;
- the counter is never below `|allocated| + |active|`.

`NodeSpec.Tracked` is stronger. It says the two maps are disjoint and the
counter is exact. A heartbeat and a release always keep it. An allocation
keeps it when it brings ids that are distinct and not yet tracked.

`NodeSpec.QueuedApart` says that no id queued for cleanup is allocated or
active. A release takes the id out of both maps before queuing it
(`NodeManager.java:234-236`), and a heartbeat empties the queue, so both keep
it. An allocation keeps it only when none of its ids is queued. Reusing a
queued id leaves that id both allocated and queued, so the next heartbeat
tells the node to clean up a container that was just allocated
(`NodeLemmas.QueuedIdReused`).

Two client methods, `Scheduler.ConfirmedOnNewNode` and
`Scheduler.LifeOfOneContainer`, take one container through its whole life
using only the class contracts: allocation, confirmation, release, and the
heartbeat that hands the container out for cleanup.

Behaviour of the code the model keeps:

- Finished applications are copied into every heartbeat response and never
  cleared (`NodeManager.java:188`).
- A release removes the id from both maps (`NodeManager.java:234-235`).
- `deductAvailableResource` logs a null resource but does not return
  (`NodeManager.java:294-300`). The model never passes one: see "Left out".

## Model

| member | source | states |
|---|---|---|
| `Scheduler.NodeManager.constructor` | yarn/yarn-server/yarn-server-resourcemanager/src/main/java/org/apache/hadoop/yarn/server/resourcemanager/scheduler/NodeManager.java:86-94 | a new node has all of its capability available and nothing used or tracked; the invariant holds, with disjoint maps, an exact counter and nothing queued that is tracked |
| `NodeSpec.Init` | yarn/yarn-server/yarn-server-resourcemanager/src/main/java/org/apache/hadoop/yarn/server/resourcemanager/scheduler/NodeManager.java:57-58 | the initial state balances the ledger (a fresh record is zero, plus the capability), has empty maps and cleanup set, and counts zero containers |
| `NodeSpec.AddAvailable` | yarn/yarn-server/yarn-server-resourcemanager/src/main/java/org/apache/hadoop/yarn/server/resourcemanager/scheduler/NodeManager.java:282-291 | a null resource changes nothing; otherwise available rises and used falls by exactly that amount, nothing else changes, and a balanced ledger stays balanced |
| `NodeSpec.DeductAvailable` | yarn/yarn-server/yarn-server-resourcemanager/src/main/java/org/apache/hadoop/yarn/server/resourcemanager/scheduler/NodeManager.java:293-301 | the amount moves from available to used, nothing else changes, and a balanced ledger stays balanced |
| `Scheduler.NodeManager.AddAvailableResource` | yarn/yarn-server/yarn-server-resourcemanager/src/main/java/org/apache/hadoop/yarn/server/resourcemanager/scheduler/NodeManager.java:282-291 | the new state is `AddAvailable` of the old, and the invariant is kept |
| `Scheduler.NodeManager.DeductAvailableResource` | yarn/yarn-server/yarn-server-resourcemanager/src/main/java/org/apache/hadoop/yarn/server/resourcemanager/scheduler/NodeManager.java:293-301 | the new state is `DeductAvailable` of the old, and the invariant is kept |
| `Scheduler.NodeManager.AllocateContainers` | yarn/yarn-server/yarn-server-resourcemanager/src/main/java/org/apache/hadoop/yarn/server/resourcemanager/scheduler/NodeManager.java:111-126 | a null list changes nothing; otherwise the new state is `AllocateAll` of the old over the list; the invariant is kept, and so are disjointness and exact counting when the ids are fresh and distinct; queued ids stay apart from tracked ones when no listed id is queued |
| `Scheduler.NodeManager.AllocateContainer` | yarn/yarn-server/yarn-server-resourcemanager/src/main/java/org/apache/hadoop/yarn/server/resourcemanager/scheduler/NodeManager.java:193-206 | one container: its resource is deducted, the counter rises by one, and it is recorded as allocated under its id |
| `NodeSpec.AllocateOne` | yarn/yarn-server/yarn-server-resourcemanager/src/main/java/org/apache/hadoop/yarn/server/resourcemanager/scheduler/NodeManager.java:193-197 | available falls and used rises by the container's resource, the allocated map is the old one with the container put under its id, the counter rises by one, nothing else changes, and a balanced ledger stays balanced |
| `NodeSpec.AllocateAll` | yarn/yarn-server/yarn-server-resourcemanager/src/main/java/org/apache/hadoop/yarn/server/resourcemanager/scheduler/NodeManager.java:111-119 | allocating a list, container after container, keeps the capability and a balanced ledger |
| `NodeSpec.Retire` | yarn/yarn-server/yarn-server-resourcemanager/src/main/java/org/apache/hadoop/yarn/server/resourcemanager/scheduler/NodeManager.java:214-217 | the container's resource moves from used back to available, the counter drops by one, nothing else changes, and a balanced ledger stays balanced |
| `NodeSpec.Release` | yarn/yarn-server/yarn-server-resourcemanager/src/main/java/org/apache/hadoop/yarn/server/resourcemanager/scheduler/NodeManager.java:225-245 | the result is true exactly when the id is active or allocated; when it is false the state is unchanged; a balanced ledger stays balanced |
| `NodeSpec.Notify` | yarn/yarn-server/yarn-server-resourcemanager/src/main/java/org/apache/hadoop/yarn/server/resourcemanager/scheduler/NodeManager.java:303-304 | the finished list is the old one with the application appended, and nothing else changes |
| `NodeSpec.ReconcileOne` | yarn/yarn-server/yarn-server-resourcemanager/src/main/java/org/apache/hadoop/yarn/server/resourcemanager/scheduler/NodeManager.java:163-184 | one reported container leaves the capability, the cleanup set and the finished applications alone, is output at most once, and keeps a balanced ledger |
| `NodeSpec.ReconcileAll` | yarn/yarn-server/yarn-server-resourcemanager/src/main/java/org/apache/hadoop/yarn/server/resourcemanager/scheduler/NodeManager.java:163-184 | the heartbeat loop outputs at most one entry per reported container and keeps a balanced ledger |
| `NodeSpec.Drain` | yarn/yarn-server/yarn-server-resourcemanager/src/main/java/org/apache/hadoop/yarn/server/resourcemanager/scheduler/NodeManager.java:187 | the cleanup set is emptied, and nothing else changes |
| `NodeSpec.Flatten` | yarn/yarn-server/yarn-server-resourcemanager/src/main/java/org/apache/hadoop/yarn/server/resourcemanager/scheduler/NodeManager.java:142-147 | the concatenated list holds exactly the containers of the reported lists (with `FlattenSingle` and `FlattenAppend`, it is their in-order concatenation) |
| `Scheduler.NodeManager.DrainContainersToClean` | yarn/yarn-server/yarn-server-resourcemanager/src/main/java/org/apache/hadoop/yarn/server/resourcemanager/scheduler/NodeManager.java:185-187 | the cleanup set is listed with every queued container once, and then cleared with nothing else changed |
| `Records.EmptyResponse` | yarn/yarn-server/yarn-server-resourcemanager/src/main/java/org/apache/hadoop/yarn/server/resourcemanager/scheduler/NodeManager.java:137-139 | the response to a null report has no finished applications, no completed containers and nothing to clean up |
| `NodeSpec.Promote` | yarn/yarn-server/yarn-server-resourcemanager/src/main/java/org/apache/hadoop/yarn/server/resourcemanager/scheduler/NodeManager.java:164-165 | a reported id that is allocated leaves the allocated map and becomes active, holding the container as reported; otherwise nothing changes; the id is never left allocated, and no other field changes |
| `NodeSpec.Enqueue` | yarn/yarn-server/yarn-server-resourcemanager/src/main/java/org/apache/hadoop/yarn/server/resourcemanager/scheduler/NodeManager.java:236 | adding to the cleanup set queues the id; an id already queued keeps its entry, other entries are untouched, a new id holds the container, and entries stay keyed by their ids |
| `NodeSpec.Reconciled` | yarn/yarn-server/yarn-server-resourcemanager/src/main/java/org/apache/hadoop/yarn/server/resourcemanager/scheduler/NodeManager.java:158-191 | a heartbeat leaves the cleanup set empty, reports the finished applications as they were, and hands out the loop's flagged containers plus exactly as many containers as were queued |
| `NodeLemmas.FlattenAppend` | yarn/yarn-server/yarn-server-resourcemanager/src/main/java/org/apache/hadoop/yarn/server/resourcemanager/scheduler/NodeManager.java:144-147 | flattening two runs of entries is flattening each in turn; with `FlattenSingle`, the flattening of a report is the lists of its entries, one after the other, each in its own order and with its repetitions |
| `NodeLemmas.FlattenSingle` | yarn/yarn-server/yarn-server-resourcemanager/src/main/java/org/apache/hadoop/yarn/server/resourcemanager/scheduler/NodeManager.java:146 | a single entry flattens to its own list, in its own order |
| `Scheduler.NodeManager.RemoveContainer` | yarn/yarn-server/yarn-server-resourcemanager/src/main/java/org/apache/hadoop/yarn/server/resourcemanager/scheduler/NodeManager.java:234-236 | the id leaves both maps and the container is queued for cleanup as `Enqueue` describes; nothing else changes |
| `NodeLemmas.AllocateAllLedger` | yarn/yarn-server/yarn-server-resourcemanager/src/main/java/org/apache/hadoop/yarn/server/resourcemanager/scheduler/NodeManager.java:111-119 | allocating a list moves the sum of its resources from available to used and raises the counter by its length; the active map, the cleanup set and the finished applications are unchanged |
| `NodeLemmas.AllocateAllKeys` | yarn/yarn-server/yarn-server-resourcemanager/src/main/java/org/apache/hadoop/yarn/server/resourcemanager/scheduler/NodeManager.java:117-119 | the allocated ids afterwards are the old ones plus the list's ids, and entries for ids not in the list are unchanged |
| `NodeLemmas.AllocateAllRecords` | yarn/yarn-server/yarn-server-resourcemanager/src/main/java/org/apache/hadoop/yarn/server/resourcemanager/scheduler/NodeManager.java:197 | the last container of the list with a given id is the one recorded under that id |
| `NodeLemmas.AllocateAllConsistent` | yarn/yarn-server/yarn-server-resourcemanager/src/main/java/org/apache/hadoop/yarn/server/resourcemanager/scheduler/NodeManager.java:193-197 | allocation keeps the ledger balanced, the maps keyed by id, and the counter at least the number of tracked entries, even when ids repeat |
| `NodeLemmas.AllocateAllTracked` | yarn/yarn-server/yarn-server-resourcemanager/src/main/java/org/apache/hadoop/yarn/server/resourcemanager/scheduler/NodeManager.java:195-197 | allocating distinct ids that are not yet tracked keeps the maps disjoint and `numContainers == \|allocated\| + \|active\|` |
| `Scheduler.NodeManager.StatusUpdate` | yarn/yarn-server/yarn-server-resourcemanager/src/main/java/org/apache/hadoop/yarn/server/resourcemanager/scheduler/NodeManager.java:134-150 | a null report gives the all-empty response and changes nothing; otherwise the reported lists are concatenated in entry order and the result is exactly the heartbeat `Reconciled` describes; exact tracking is kept, and queued ids stay apart from tracked ones |
| `Scheduler.NodeManager.Update` | yarn/yarn-server/yarn-server-resourcemanager/src/main/java/org/apache/hadoop/yarn/server/resourcemanager/scheduler/NodeManager.java:158-191 | the new state is the loop's state with the cleanup set emptied; the response holds the finished applications, the loop's completed containers, and the loop's flagged containers followed by every queued container once; the invariant and exact tracking are kept, and afterwards no queued id is tracked |
| `Scheduler.NodeManager.ReconcileContainer` | yarn/yarn-server/yarn-server-resourcemanager/src/main/java/org/apache/hadoop/yarn/server/resourcemanager/scheduler/NodeManager.java:163-184 | one turn of the heartbeat loop changes the state and the two output lists exactly as `ReconcileOne` does |
| `Scheduler.ListContainers` | yarn/yarn-server/yarn-server-resourcemanager/src/main/java/org/apache/hadoop/yarn/server/resourcemanager/scheduler/NodeManager.java:185 | the drained cleanup set is listed with every queued container exactly once, and nothing else |
| `NodeLemmas.AllocateAllQueuedApart` | yarn/yarn-server/yarn-server-resourcemanager/src/main/java/org/apache/hadoop/yarn/server/resourcemanager/scheduler/NodeManager.java:193-197 | allocating ids that are not queued for cleanup keeps every queued id out of both maps |
| `NodeLemmas.QueuedIdReused` | yarn/yarn-server/yarn-server-resourcemanager/src/main/java/org/apache/hadoop/yarn/server/resourcemanager/scheduler/NodeManager.java:197 | allocating a container whose id is queued for cleanup leaves the id both allocated and queued, so queued ids are no longer apart from tracked ones |
| `NodeLemmas.ReconcileAllQueuedApart` | yarn/yarn-server/yarn-server-resourcemanager/src/main/java/org/apache/hadoop/yarn/server/resourcemanager/scheduler/NodeManager.java:163-184 | the heartbeat loop only moves ids from allocated to active or drops them and leaves the cleanup set alone, so queued ids stay apart from tracked ones |
| `NodeLemmas.ReleaseQueuedApart` | yarn/yarn-server/yarn-server-resourcemanager/src/main/java/org/apache/hadoop/yarn/server/resourcemanager/scheduler/NodeManager.java:234-236 | a release removes the id from both maps before queuing it, so queued ids stay apart from tracked ones |
| `NodeLemmas.ReconciledQueuedApart` | yarn/yarn-server/yarn-server-resourcemanager/src/main/java/org/apache/hadoop/yarn/server/resourcemanager/scheduler/NodeManager.java:185-187 | after a heartbeat the cleanup set is empty, so no queued id is tracked |
| `NodeLemmas.ReconcilePromotes` | yarn/yarn-server/yarn-server-resourcemanager/src/main/java/org/apache/hadoop/yarn/server/resourcemanager/scheduler/NodeManager.java:164-168 | a reported id that is allocated leaves the allocated map; unless it reports completion it becomes active as reported, with no change to the ledger or the counter and no output |
| `NodeLemmas.ReconcileCompletes` | yarn/yarn-server/yarn-server-resourcemanager/src/main/java/org/apache/hadoop/yarn/server/resourcemanager/scheduler/NodeManager.java:170-178 | a complete container is always appended to the completed list; if its id was tracked it leaves both maps, its resource returns to available and the counter drops by one; otherwise the state is unchanged |
| `NodeLemmas.ReconcileFlagsUnknown` | yarn/yarn-server/yarn-server-resourcemanager/src/main/java/org/apache/hadoop/yarn/server/resourcemanager/scheduler/NodeManager.java:179-183 | a container that is not complete is flagged for cleanup if and only if its id is in neither map, and then the state is left unchanged |
| `NodeLemmas.ReconcileOneConsistent` | yarn/yarn-server/yarn-server-resourcemanager/src/main/java/org/apache/hadoop/yarn/server/resourcemanager/scheduler/NodeManager.java:163-178 | one reported container keeps the ledger balanced, the maps keyed by id and the counter bound |
| `NodeLemmas.ReconcileOneTracked` | yarn/yarn-server/yarn-server-resourcemanager/src/main/java/org/apache/hadoop/yarn/server/resourcemanager/scheduler/NodeManager.java:164-177 | one reported container keeps the maps disjoint and the counter exact |
| `NodeLemmas.ReconcileAllFrame` | yarn/yarn-server/yarn-server-resourcemanager/src/main/java/org/apache/hadoop/yarn/server/resourcemanager/scheduler/NodeManager.java:163-184 | the heartbeat loop leaves the capability, the cleanup set and the finished applications unchanged |
| `NodeLemmas.ReconcileAllOutputs` | yarn/yarn-server/yarn-server-resourcemanager/src/main/java/org/apache/hadoop/yarn/server/resourcemanager/scheduler/NodeManager.java:170-183 | the completed list is exactly the reported complete containers, in order; every flagged container was reported and is not complete |
| `NodeLemmas.ReconcileAllUnallocates` | yarn/yarn-server/yarn-server-resourcemanager/src/main/java/org/apache/hadoop/yarn/server/resourcemanager/scheduler/NodeManager.java:164-165 | after the loop the allocated map is the old one minus the reported ids |
| `NodeLemmas.ReconcileAllWithoutCompletion` | yarn/yarn-server/yarn-server-resourcemanager/src/main/java/org/apache/hadoop/yarn/server/resourcemanager/scheduler/NodeManager.java:164-168 | a heartbeat in which nothing is complete changes neither the ledger nor the counter |
| `NodeLemmas.ReconcileAllConsistent` | yarn/yarn-server/yarn-server-resourcemanager/src/main/java/org/apache/hadoop/yarn/server/resourcemanager/scheduler/NodeManager.java:163-184 | the whole heartbeat loop keeps the ledger balanced (every resource it gives back leaves used) and keeps the invariant |
| `NodeLemmas.ReconcileAllTracked` | yarn/yarn-server/yarn-server-resourcemanager/src/main/java/org/apache/hadoop/yarn/server/resourcemanager/scheduler/NodeManager.java:163-184 | the whole heartbeat loop keeps the maps disjoint and the counter exact |
| `NodeLemmas.DrainedResponse` | yarn/yarn-server/yarn-server-resourcemanager/src/main/java/org/apache/hadoop/yarn/server/resourcemanager/scheduler/NodeManager.java:185-190 | the response update assembles, with the drained state, is the heartbeat `Reconciled` describes, and the drained state keeps the invariant and exact tracking |
| `NodeLemmas.ReconciledCleanUp` | yarn/yarn-server/yarn-server-resourcemanager/src/main/java/org/apache/hadoop/yarn/server/resourcemanager/scheduler/NodeManager.java:179-187 | every queued container is handed out for cleanup, and everything else handed out is a reported container that is not complete |
| `NodeLemmas.ReconciledEmptyReport` | yarn/yarn-server/yarn-server-resourcemanager/src/main/java/org/apache/hadoop/yarn/server/resourcemanager/scheduler/NodeManager.java:185-187 | a heartbeat reporting nothing hands out exactly the queued containers and empties the cleanup set |
| `NodeLemmas.ReconciledNothingQueued` | yarn/yarn-server/yarn-server-resourcemanager/src/main/java/org/apache/hadoop/yarn/server/resourcemanager/scheduler/NodeManager.java:158-184 | with nothing queued for cleanup, a heartbeat's state and outputs are those of its loop alone |
| `NodeLemmas.DrainOnce` | yarn/yarn-server/yarn-server-resourcemanager/src/main/java/org/apache/hadoop/yarn/server/resourcemanager/scheduler/NodeManager.java:185-188 | a second heartbeat reporting nothing hands out no cleanup and changes no state, but reports the same finished applications again |
| `NodeLemmas.ListsEmpty` | yarn/yarn-server/yarn-server-resourcemanager/src/main/java/org/apache/hadoop/yarn/server/resourcemanager/scheduler/NodeManager.java:187 | an emptied cleanup set is listed as nothing |
| `NodeLemmas.ListsMembers` | yarn/yarn-server/yarn-server-resourcemanager/src/main/java/org/apache/hadoop/yarn/server/resourcemanager/scheduler/NodeManager.java:185 | a listing of the cleanup set holds exactly its containers |
| `NodeLemmas.ListsSingle` | yarn/yarn-server/yarn-server-resourcemanager/src/main/java/org/apache/hadoop/yarn/server/resourcemanager/scheduler/NodeManager.java:236 | a cleanup set with one queued container is listed as that container alone |
| `Scheduler.NodeManager.IsValidContainer` | yarn/yarn-server/yarn-server-resourcemanager/src/main/java/org/apache/hadoop/yarn/server/resourcemanager/scheduler/NodeManager.java:208-212 | true exactly when the id is active or allocated |
| `Scheduler.NodeManager.UpdateResource` | yarn/yarn-server/yarn-server-resourcemanager/src/main/java/org/apache/hadoop/yarn/server/resourcemanager/scheduler/NodeManager.java:214-217 | the container's resource returns from used to available and the counter drops by one |
| `Scheduler.NodeManager.ReleaseContainer` | yarn/yarn-server/yarn-server-resourcemanager/src/main/java/org/apache/hadoop/yarn/server/resourcemanager/scheduler/NodeManager.java:225-245 | the new state and the result are those of `Release`; the invariant and exact tracking are kept, and queued ids stay apart from tracked ones |
| `NodeLemmas.ReleaseUntracked` | yarn/yarn-server/yarn-server-resourcemanager/src/main/java/org/apache/hadoop/yarn/server/resourcemanager/scheduler/NodeManager.java:226-229 | releasing an id in neither map returns false and leaves every field unchanged |
| `NodeLemmas.ReleaseEffect` | yarn/yarn-server/yarn-server-resourcemanager/src/main/java/org/apache/hadoop/yarn/server/resourcemanager/scheduler/NodeManager.java:234-244 | releasing a tracked id returns true and removes the id from both maps; it queues the container for cleanup unless its id is queued already, in which case the queued entry is kept, and touches no other queued entry; it returns the resource to available and drops the counter by one |
| `NodeLemmas.RemoveTrackedSize` | yarn/yarn-server/yarn-server-resourcemanager/src/main/java/org/apache/hadoop/yarn/server/resourcemanager/scheduler/NodeManager.java:234-235 | removing a tracked id from both maps removes at least one entry, and exactly one when the maps are disjoint |
| `NodeLemmas.ReleaseKeepsInvariants` | yarn/yarn-server/yarn-server-resourcemanager/src/main/java/org/apache/hadoop/yarn/server/resourcemanager/scheduler/NodeManager.java:225-245 | a release keeps the invariant, and keeps the maps disjoint and the counter exact |
| `NodeLemmas.AllocateThenRun` | yarn/yarn-server/yarn-server-resourcemanager/src/main/java/org/apache/hadoop/yarn/server/resourcemanager/scheduler/NodeManager.java:164-165 | a newly allocated container reported running becomes active as reported; its resource stays deducted and nothing is output |
| `NodeLemmas.RunThenComplete` | yarn/yarn-server/yarn-server-resourcemanager/src/main/java/org/apache/hadoop/yarn/server/resourcemanager/scheduler/NodeManager.java:170-175 | the same container reported complete afterwards is untracked again, with the ledger and the counter back where they were before the allocation; it is reported completed once |
| `Scheduler.NodeManager.NotifyFinishedApplication` | yarn/yarn-server/yarn-server-resourcemanager/src/main/java/org/apache/hadoop/yarn/server/resourcemanager/scheduler/NodeManager.java:303-308 | the application is appended to the finished list, and nothing else changes |
| `Scheduler.NodeManager.GetTotalCapability` | yarn/yarn-server/yarn-server-resourcemanager/src/main/java/org/apache/hadoop/yarn/server/resourcemanager/scheduler/NodeManager.java:257-260 | returns the capability, which equals available plus used |
| `Scheduler.NodeManager.GetAvailableResource` | yarn/yarn-server/yarn-server-resourcemanager/src/main/java/org/apache/hadoop/yarn/server/resourcemanager/scheduler/NodeManager.java:272-275 | returns the available amount, which is the capability minus what is used |
| `Scheduler.NodeManager.GetUsedResource` | yarn/yarn-server/yarn-server-resourcemanager/src/main/java/org/apache/hadoop/yarn/server/resourcemanager/scheduler/NodeManager.java:277-280 | returns the used amount, which is the capability minus what is available |
| `Scheduler.NodeManager.GetNumContainers` | yarn/yarn-server/yarn-server-resourcemanager/src/main/java/org/apache/hadoop/yarn/server/resourcemanager/scheduler/NodeManager.java:310-313 | returns the counter, which is never below the number of tracked containers and so never negative |
| `Scheduler.ConfirmedOnNewNode` | yarn/yarn-server/yarn-server-resourcemanager/src/main/java/org/apache/hadoop/yarn/server/resourcemanager/scheduler/NodeManager.java:111-191 | through the class contracts: a container allocated on a new node and reported running is active, with its resource deducted and a count of one |

## Left out

- Logging (`LOG.info`, `LOG.error`) and `toString` produce output only.
- The `synchronized` and `volatile` modifiers only provide locking. The object is modelled sequentially.
- Node identity and topology are foreign networking types or trivial getters. This covers `nodeId`, `hostName`, `node`, `getNodeInfo`, `getNodeID`, `getHostName`, `getRackName` and `getNode`.
- The record factory is a foreign call. A fresh resource record is taken to be zero.
- `Resource.addResource` and `Resource.subtractResource` are in a file that is not part of this model. They are modelled as addition and subtraction of a memory amount.
- A resource is a single unbounded memory amount. The model does not capture other resource dimensions or 32-bit overflow of the memory field.
- `Scheduler.NodeManager.DeductAvailableResource`: takes a resource that is never null. On a null resource the source logs and then calls helpers that are not part of this model, so that path is left out.
- `NodeSpec.Enqueue`: the comparator of the cleanup `TreeSet` is in a file that is not part of this model. The set is modelled as keyed by container id: adding a container whose id is already queued keeps the queued entry.
- `Scheduler.ListContainers`: the `TreeSet` hands out its containers in comparator order, and the model leaves that order open.
- `Scheduler.NodeManager.StatusUpdate`: the Java map's iteration order is not modelled. The caller passes the entries in that order. The keys are ignored, as in the source.
- `Scheduler.NodeManager.ReconcileContainer`: in the source this is the body of `update`'s loop, not a method of its own. It is a separate method here so that each proof stays small.
- `notifyFinishedApplication` does not clean up the application's containers (`NodeManager.java:305-307`), and neither does the model. The finished list is never cleared.
- `Records.Container`: a container's resource is never null. In the source, a container with a null resource that is completed while active (`NodeManager.java:172`) or released (`:237`) reaches `addAvailableResource`, which leaves the ledger alone (`:283-285`) while `updateResource` still decrements the counter (`:216`). The model does not capture that path.
- `Scheduler.NodeManager.AllocateContainers` and `Scheduler.NodeManager.StatusUpdate`: a null element of a container list, or a null list in the reported map, makes the source throw a null-pointer exception (`NodeManager.java:118`, `:146`, `:164`). The model's types rule these out.
- `Scheduler.NodeManager.GetNumContainers`: the counter is a Java `int` (`NodeManager.java:84`) whose increments and decrements wrap around at 32 bits. The model's counter is unbounded.
- Aliasing of resource records is not modelled: every resource is a value. In the source, the constructor keeps the caller's capability record (`NodeManager.java:89`), `getTotalCapability`, `getAvailableResource` and `getUsedResource` hand out the node's own records (`:257-280`), and `addAvailableResource` and `deductAvailableResource` read a record while updating others (`:287-290`, `:297-300`). A caller that changes one of those records, or passes the node's own record back (for example `deductAvailableResource(getAvailableResource())`, which zeroes available before adding the now-zero amount to used), can unbalance the ledger. The model does not capture that, and its invariant holds only for callers that treat the records as values.
- `Scheduler.NodeManager.RemoveContainer`: in the source these are lines 234-236 of `releaseContainer`, not a method of their own. They are a separate method here so that the release proof stays small.
