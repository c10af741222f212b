/**
 * The bookkeeping of one cluster node as a value, and one function per
 * operation of the node object giving the state that operation leaves
 * behind. The class in node_manager.dfy is proved against these functions;
 * the properties of the functions are proved in node_lemmas.dfy.
 */
module NodeSpec {
  import opened Records

  /** Everything the node object holds besides its identity. */
  datatype NodeState = NodeState(
    totalCapability: Resource,                       // fixed at construction
    availableResource: Resource,
    usedResource: Resource,
    allocatedContainers: map<ContainerId, Container>,  // assigned, not yet confirmed by the node
    activeContainers: map<ContainerId, Container>,     // confirmed running by the node
    containersToClean: map<ContainerId, Container>,    // the cleanup set, one entry per id
    finishedApplications: seq<ApplicationId>,
    numContainers: int)

  /** Ledger conservation: what is not available is in use. */
  predicate Balanced(s: NodeState)
  {
    s.availableResource + s.usedResource == s.totalCapability
  }

  /** A container map holds every container under its own id. */
  predicate KeyedById(m: map<ContainerId, Container>)
  {
    forall k :: k in m ==> m[k].id == k
  }

  /** The counter never falls below the number of tracked entries. */
  predicate Counted(s: NodeState)
  {
    s.numContainers >= |s.allocatedContainers| + |s.activeContainers|
  }

  /** What each method the source makes public keeps, for callers that
      treat resources as values. */
  predicate Consistent(s: NodeState)
  {
    && Balanced(s)
    && KeyedById(s.allocatedContainers) && KeyedById(s.activeContainers) && KeyedById(s.containersToClean)
    && Counted(s)
  }

  /** What also holds while every allocation brings ids not yet tracked: no id
      is both allocated and active, and the counter is exact. */
  predicate Tracked(s: NodeState)
  {
    && s.allocatedContainers.Keys !! s.activeContainers.Keys
    && s.numContainers == |s.allocatedContainers| + |s.activeContainers|
  }

  /** No id queued for cleanup is allocated or active: a release takes the id
      out of both maps before queuing it. It holds while no allocation
      reuses a queued id. */
  predicate QueuedApart(s: NodeState)
  {
    s.containersToClean.Keys !! (s.allocatedContainers.Keys + s.activeContainers.Keys)
  }

  /** The ids of the list are not queued for cleanup. */
  predicate NotQueued(s: NodeState, cs: seq<Container>)
  {
    forall i :: 0 <= i < |cs| ==> cs[i].id !in s.containersToClean
  }

  /** The validity test of a release: the id is allocated or active. */
  predicate IsTracked(s: NodeState, id: ContainerId)
  {
    id in s.activeContainers || id in s.allocatedContainers
  }

  /** The freshly constructed node: all of the capability is available. */
  function Init(capability: Resource): (s: NodeState)
    ensures Consistent(s) && Tracked(s) && QueuedApart(s)
    ensures s.totalCapability == capability && s.usedResource == 0
    ensures s.allocatedContainers == map[] && s.activeContainers == map[] && s.containersToClean == map[] && s.finishedApplications == []
  {
    NodeState(capability, 0 + capability, 0, map[], map[], map[], [], 0)
  }

  /** addAvailableResource: a null resource is refused and changes nothing. */
  function AddAvailable(s: NodeState, resource: Option<Resource>): (r: NodeState)
    ensures resource.None? ==> r == s
    ensures resource.Some? ==> r.availableResource == s.availableResource + resource.value
                               && r.usedResource == s.usedResource - resource.value
    ensures r.(availableResource := s.availableResource, usedResource := s.usedResource) == s
    ensures Balanced(s) ==> Balanced(r)
  {
    match resource
    case None => s
    case Some(amount) => s.(availableResource := s.availableResource + amount, usedResource := s.usedResource - amount)
  }

  /** deductAvailableResource, for a resource that is present. */
  function DeductAvailable(s: NodeState, amount: Resource): (r: NodeState)
    ensures r.availableResource == s.availableResource - amount && r.usedResource == s.usedResource + amount
    ensures r.(availableResource := s.availableResource, usedResource := s.usedResource) == s
    ensures Balanced(s) ==> Balanced(r)
  {
    s.(availableResource := s.availableResource - amount, usedResource := s.usedResource + amount)
  }

  /** The private allocateContainer: deduct, count, record as allocated. */
  function AllocateOne(s: NodeState, c: Container): (r: NodeState)
    ensures r.availableResource == s.availableResource - c.resource && r.usedResource == s.usedResource + c.resource
    ensures r.allocatedContainers == s.allocatedContainers[c.id := c]
    ensures r.numContainers == s.numContainers + 1
    ensures r.(availableResource := s.availableResource, usedResource := s.usedResource,
               allocatedContainers := s.allocatedContainers, numContainers := s.numContainers) == s
    ensures Balanced(s) ==> Balanced(r)
  {
    var d := DeductAvailable(s, c.resource);
    d.(numContainers := d.numContainers + 1, allocatedContainers := d.allocatedContainers[c.id := c])
  }

  /** The public allocateContainer over a present list, one container after the other. */
  function AllocateAll(s: NodeState, cs: seq<Container>): (r: NodeState)
    ensures Balanced(s) ==> Balanced(r)
    ensures r.totalCapability == s.totalCapability
    decreases |cs|
  {
    if cs == [] then s
    else AllocateOne(AllocateAll(s, cs[..|cs| - 1]), cs[|cs| - 1])
  }

  /** The sum of the containers' resources. */
  function TotalResource(cs: seq<Container>): Resource
  {
    if cs == [] then 0 else TotalResource(cs[..|cs| - 1]) + cs[|cs| - 1].resource
  }

  /** The ids of the containers. */
  function Ids(cs: seq<Container>): (ids: set<ContainerId>)
    ensures forall i :: 0 <= i < |cs| ==> cs[i].id in ids
    ensures forall k :: k in ids ==> exists i :: 0 <= i < |cs| && cs[i].id == k
  {
    if cs == [] then {} else Ids(cs[..|cs| - 1]) + {cs[|cs| - 1].id}
  }

  /** Ids that are not tracked yet and not repeated within the list. */
  predicate FreshIds(s: NodeState, cs: seq<Container>)
  {
    && (forall i :: 0 <= i < |cs| ==> !IsTracked(s, cs[i].id))
    && (forall i, j :: 0 <= i < j < |cs| ==> cs[i].id != cs[j].id)
  }

  /** updateResource: give the container's resource back and count it out. */
  function Retire(s: NodeState, c: Container): (r: NodeState)
    ensures r.availableResource == s.availableResource + c.resource
    ensures r.usedResource == s.usedResource - c.resource
    ensures r.numContainers == s.numContainers - 1
    ensures r.(availableResource := s.availableResource, usedResource := s.usedResource,
               numContainers := s.numContainers) == s
    ensures Balanced(s) ==> Balanced(r)
  {
    var a := AddAvailable(s, Some(c.resource));
    a.(numContainers := a.numContainers - 1)
  }

  /** Adding to the cleanup set: an id already queued keeps its entry. */
  function Enqueue(m: map<ContainerId, Container>, c: Container): (r: map<ContainerId, Container>)
    ensures r.Keys == m.Keys + {c.id}
    ensures forall k :: k in m ==> r[k] == m[k]
    ensures c.id !in m ==> r[c.id] == c
    ensures KeyedById(m) ==> KeyedById(r)
  {
    if c.id in m then m else m[c.id := c]
  }

  /** releaseContainer: the new state and whether the container was released. */
  function Release(s: NodeState, c: Container): (r: (NodeState, bool))
    ensures r.1 <==> IsTracked(s, c.id)
    ensures !r.1 ==> r.0 == s
    ensures Balanced(s) ==> Balanced(r.0)
  {
    if !IsTracked(s, c.id) then (s, false)
    else
      var removed := s.(activeContainers := s.activeContainers - {c.id},
                        allocatedContainers := s.allocatedContainers - {c.id},
                        containersToClean := Enqueue(s.containersToClean, c));
      (Retire(removed, c), true)
  }

  /** notifyFinishedApplication. */
  function Notify(s: NodeState, app: ApplicationId): (r: NodeState)
    ensures |r.finishedApplications| == |s.finishedApplications| + 1
    ensures r.finishedApplications[..|s.finishedApplications|] == s.finishedApplications
    ensures r.finishedApplications[|s.finishedApplications|] == app
    ensures r.(finishedApplications := s.finishedApplications) == s
  {
    s.(finishedApplications := s.finishedApplications + [app])
  }

  /** The state of a heartbeat's loop: the node and the two lists it builds. */
  datatype Pass = Pass(node: NodeState, completed: seq<Container>, toCleanUp: seq<Container>)

  /** The first step for a reported container: an allocated id becomes
      active, holding the container as reported. */
  function Promote(s: NodeState, c: Container): (r: NodeState)
    ensures c.id !in r.allocatedContainers
    ensures c.id in s.allocatedContainers ==>
              && r.allocatedContainers == s.allocatedContainers - {c.id}
              && r.activeContainers == s.activeContainers[c.id := c]
    ensures c.id !in s.allocatedContainers ==> r == s
    ensures r.(allocatedContainers := s.allocatedContainers, activeContainers := s.activeContainers) == s
  {
    if c.id in s.allocatedContainers
    then s.(allocatedContainers := s.allocatedContainers - {c.id},
            activeContainers := s.activeContainers[c.id := c])
    else s
  }

  /** One reported container, as update handles it: promote an allocated id,
      then retire a complete container or flag an untracked one. */
  function ReconcileOne(p: Pass, c: Container): (q: Pass)
    ensures q.node.totalCapability == p.node.totalCapability
    ensures q.node.containersToClean == p.node.containersToClean
    ensures q.node.finishedApplications == p.node.finishedApplications
    ensures |q.completed| + |q.toCleanUp| <= |p.completed| + |p.toCleanUp| + 1
    ensures Balanced(p.node) ==> Balanced(q.node)
  {
    var promoted := Promote(p.node, c);
    if c.state == Complete then
      var retired :=
        if c.id in promoted.activeContainers
        then Retire(promoted.(activeContainers := promoted.activeContainers - {c.id}), c)
        else promoted;
      Pass(retired, p.completed + [c], p.toCleanUp)
    else if c.id !in promoted.allocatedContainers && c.id !in promoted.activeContainers then
      Pass(promoted, p.completed, p.toCleanUp + [c])
    else
      Pass(promoted, p.completed, p.toCleanUp)
  }

  /** The loop of update over the reported containers, in order. */
  function ReconcileAll(s: NodeState, cs: seq<Container>): (q: Pass)
    ensures |q.completed| + |q.toCleanUp| <= |cs|
    ensures Balanced(s) ==> Balanced(q.node)
    decreases |cs|
  {
    if cs == [] then Pass(s, [], [])
    else ReconcileOne(ReconcileAll(s, cs[..|cs| - 1]), cs[|cs| - 1])
  }

  /** The end of update: the cleanup set is emptied. */
  function Drain(s: NodeState): (r: NodeState)
    ensures r.containersToClean == map[]
    ensures r.(containersToClean := s.containersToClean) == s
  {
    s.(containersToClean := map[])
  }

  /** statusUpdate's flattening of the reported lists, entry after entry. */
  function Flatten(entries: seq<(string, seq<Container>)>): (cs: seq<Container>)
    ensures forall i, x :: 0 <= i < |entries| && x in entries[i].1 ==> x in cs
    ensures forall x :: x in cs ==> exists i :: 0 <= i < |entries| && x in entries[i].1
  {
    if entries == [] then [] else Flatten(entries[..|entries| - 1]) + entries[|entries| - 1].1
  }

  /** xs names every container of the map once, in some order. */
  ghost predicate Lists(xs: seq<Container>, m: map<ContainerId, Container>)
  {
    && |xs| == |m|
    && (forall i :: 0 <= i < |xs| ==> xs[i].id in m && m[xs[i].id] == xs[i])
    && (forall i, j :: 0 <= i < j < |xs| ==> xs[i].id != xs[j].id)
    && (forall k :: k in m ==> exists i :: 0 <= i < |xs| && xs[i].id == k)
  }

  /** A heartbeat's whole effect: s' is the state update leaves after the
      reported containers cs, and r its response. The cleanup output is the
      loop's flagged containers followed by the drained cleanup set, the
      latter in an order the model leaves open. */
  ghost predicate Reconciled(s: NodeState, cs: seq<Container>, s': NodeState, r: NodeResponse): (b: bool)
    ensures b ==> s'.containersToClean == map[] && r.finishedApplications == s.finishedApplications
    ensures b ==> |r.containersToCleanUp| == |ReconcileAll(s, cs).toCleanUp| + |s.containersToClean|
  {
    var pass := ReconcileAll(s, cs);
    && s' == Drain(pass.node)
    && r.finishedApplications == s.finishedApplications
    && r.completedContainers == pass.completed
    && |pass.toCleanUp| <= |r.containersToCleanUp|
    && r.containersToCleanUp[..|pass.toCleanUp|] == pass.toCleanUp
    && Lists(r.containersToCleanUp[|pass.toCleanUp|..], s.containersToClean)
  }
}
