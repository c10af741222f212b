/**
 * The scheduler's bookkeeping object for one node, with the fields and the
 * methods of the source class. Every state-changing method is proved
 * against the function of NodeSpec for the same operation, through State();
 * Valid() is the invariant each method the source makes public keeps.
 */
module Scheduler {
  import opened Records
  import opened NodeSpec
  import opened NodeLemmas

  /** Lists the containers of a cleanup set, each once, in no fixed order. */
  method ListContainers(m: map<ContainerId, Container>) returns (xs: seq<Container>)
    requires KeyedById(m)
    ensures Lists(xs, m)
  {
    xs := [];
    var rest := m.Keys;
    while rest != {}
      invariant rest <= m.Keys
      invariant |xs| + |rest| == |m.Keys|
      invariant forall i :: 0 <= i < |xs| ==> xs[i].id in m.Keys - rest && m[xs[i].id] == xs[i]
      invariant forall i, j :: 0 <= i < j < |xs| ==> xs[i].id != xs[j].id
      invariant forall k :: k in m.Keys - rest ==> exists i :: 0 <= i < |xs| && xs[i].id == k
      decreases rest
    {
      var k :| k in rest;
      ghost var before, restBefore := xs, rest;
      xs := xs + [m[k]];
      rest := rest - {k};
      forall k' | k' in m.Keys - rest ensures exists i :: 0 <= i < |xs| && xs[i].id == k' {
        if k' == k {
          assert xs[|xs| - 1].id == k';
        } else {
          assert k' in m.Keys - restBefore;
          var i :| 0 <= i < |before| && before[i].id == k';
          assert xs[i] == before[i];
        }
      }
    }
    assert m.Keys - rest == m.Keys;
    assert |m.Keys| == |m|;
  }

  class NodeManager {
    const totalCapability: Resource
    var availableResource: Resource
    var usedResource: Resource
    var allocatedContainers: map<ContainerId, Container>
    var activeContainers: map<ContainerId, Container>
    var containersToClean: map<ContainerId, Container>
    var finishedApplications: seq<ApplicationId>
    var numContainers: int

    /** The object's fields as a NodeSpec value. */
    function State(): NodeState
      reads this
    {
      NodeState(totalCapability, availableResource, usedResource,
                allocatedContainers, activeContainers, containersToClean,
                finishedApplications, numContainers)
    }

    ghost predicate Valid()
      reads this
    {
      Consistent(State())
    }

    /** A new node: a fresh resource record is zero, and the whole capability
        is added to it. */
    constructor (capability: Resource)
      ensures Valid() && Tracked(State()) && QueuedApart(State())
      ensures State() == Init(capability)
    {
      var zero: Resource := 0;
      totalCapability := capability;
      availableResource, usedResource := zero + capability, 0;
      allocatedContainers, activeContainers, containersToClean := map[], map[], map[];
      finishedApplications := [];
      numContainers := 0;
    }

    /** allocateContainer(applicationId, containers): a null list is refused
        and changes nothing; otherwise every container is allocated in turn. */
    method AllocateContainers(applicationId: ApplicationId, containers: Option<seq<Container>>)
      requires Valid()
      modifies this
      ensures Valid()
      ensures containers.None? ==> State() == old(State())
      ensures containers.Some? ==> State() == AllocateAll(old(State()), containers.value)
      ensures containers.Some? && old(Tracked(State()) && FreshIds(State(), containers.value)) ==>
                Tracked(State())
      ensures containers.Some? && old(QueuedApart(State()) && NotQueued(State(), containers.value)) ==>
                QueuedApart(State())
    {
      if containers.None? {
        return;
      }
      var cs := containers.value;
      ghost var s0 := State();
      for i := 0 to |cs|
        invariant State() == AllocateAll(s0, cs[..i])
      {
        assert cs[..i + 1][..i] == cs[..i];
        AllocateContainer(cs[i]);
      }
      assert cs[..|cs|] == cs;
      AllocateAllConsistent(s0, cs);
      if Tracked(s0) && FreshIds(s0, cs) {
        AllocateAllTracked(s0, cs);
      }
      if QueuedApart(s0) && NotQueued(s0, cs) {
        AllocateAllQueuedApart(s0, cs);
      }
    }

    /** allocateContainer(container): deduct, count, record as allocated. */
    method AllocateContainer(c: Container)
      modifies this
      ensures State() == AllocateOne(old(State()), c)
    {
      DeductAvailableResource(c.resource);
      numContainers := numContainers + 1;
      allocatedContainers := allocatedContainers[c.id := c];
    }

    /** statusUpdate: a null report answers an empty response and changes
        nothing; otherwise the reported lists are concatenated in the map's
        iteration order (the order of the entries) and reconciled. */
    method StatusUpdate(allContainers: Option<seq<(string, seq<Container>)>>) returns (r: NodeResponse)
      requires Valid()
      modifies this
      ensures Valid()
      ensures allContainers.None? ==> r == EmptyResponse() && State() == old(State())
      ensures allContainers.Some? ==>
                Reconciled(old(State()), Flatten(allContainers.value), State(), r)
      ensures old(Tracked(State())) ==> Tracked(State())
      ensures old(QueuedApart(State())) ==> QueuedApart(State())
    {
      if allContainers.None? {
        return EmptyResponse();
      }
      var entries := allContainers.value;
      var listContainers: seq<Container> := [];
      for i := 0 to |entries|
        invariant listContainers == Flatten(entries[..i])
      {
        assert entries[..i + 1][..i] == entries[..i];
        listContainers := listContainers + entries[i].1;
      }
      assert entries[..|entries|] == entries;
      r := Update(listContainers);
    }

    /** update: reconcile the reported containers in order, then hand out
        and empty the cleanup set. Finished applications are reported and
        kept. */
    method Update(containers: seq<Container>) returns (r: NodeResponse)
      requires Valid()
      modifies this
      ensures Valid()
      ensures Reconciled(old(State()), containers, State(), r)
      ensures old(Tracked(State())) ==> Tracked(State())
      ensures QueuedApart(State())
    {
      ghost var s0 := State();
      var completedContainers: seq<Container> := [];
      var containersToCleanUp: seq<Container> := [];
      for i := 0 to |containers|
        invariant State() == ReconcileAll(s0, containers[..i]).node
        invariant completedContainers == ReconcileAll(s0, containers[..i]).completed
        invariant containersToCleanUp == ReconcileAll(s0, containers[..i]).toCleanUp
      {
        assert containers[..i + 1][..i] == containers[..i];
        completedContainers, containersToCleanUp :=
          ReconcileContainer(containers[i], completedContainers, containersToCleanUp);
      }
      assert containers[..|containers|] == containers;
      ReconcileAllFrame(s0, containers);
      var drained := DrainContainersToClean();
      DrainedResponse(s0, containers, drained);
      containersToCleanUp := containersToCleanUp + drained;
      r := NodeResponse(finishedApplications, completedContainers, containersToCleanUp);
    }

    /** The end of update: list the cleanup set, each container once, and
        clear it. */
    method DrainContainersToClean() returns (drained: seq<Container>)
      requires KeyedById(containersToClean)
      modifies this
      ensures Lists(drained, old(containersToClean))
      ensures State() == Drain(old(State()))
    {
      drained := ListContainers(containersToClean);
      containersToClean := map[];
    }

    /** The body of update's loop for one reported container: promote an
        allocated id, then retire a complete container or flag an untracked
        one, extending the two output lists. */
    method ReconcileContainer(c: Container, completed: seq<Container>, toCleanUp: seq<Container>)
      returns (completed': seq<Container>, toCleanUp': seq<Container>)
      modifies this
      ensures Pass(State(), completed', toCleanUp') == ReconcileOne(Pass(old(State()), completed, toCleanUp), c)
    {
      completed', toCleanUp' := completed, toCleanUp;
      if c.id in allocatedContainers {
        allocatedContainers := allocatedContainers - {c.id};
        activeContainers := activeContainers[c.id := c];
      }
      if c.state == Complete {
        if c.id in activeContainers {
          activeContainers := activeContainers - {c.id};
          UpdateResource(c);
        }
        completed' := completed' + [c];
      } else if c.state != Complete && c.id !in allocatedContainers && c.id !in activeContainers {
        toCleanUp' := toCleanUp' + [c];
      }
    }

    /** isValidContainer: the id is active or allocated. */
    method IsValidContainer(c: Container) returns (valid: bool)
      ensures valid <==> c.id in activeContainers || c.id in allocatedContainers
    {
      if c.id in activeContainers || c.id in allocatedContainers {
        return true;
      }
      return false;
    }

    /** updateResource: give the container's resource back and count it out. */
    method UpdateResource(c: Container)
      modifies this
      ensures State() == Retire(old(State()), c)
    {
      AddAvailableResource(Some(c.resource));
      numContainers := numContainers - 1;
    }

    /** releaseContainer: an untracked container is refused; a tracked one
        leaves both maps, is queued for cleanup and is retired. */
    method ReleaseContainer(c: Container) returns (released: bool)
      requires Valid()
      modifies this
      ensures Valid()
      ensures (State(), released) == Release(old(State()), c)
      ensures old(Tracked(State())) ==> Tracked(State())
      ensures old(QueuedApart(State())) ==> QueuedApart(State())
    {
      ghost var s0 := State();
      var valid := IsValidContainer(c);
      if !valid {
        return false;
      }
      RemoveContainer(c);
      UpdateResource(c);
      ReleaseKeepsInvariants(s0, c);
      if QueuedApart(s0) {
        ReleaseQueuedApart(s0, c);
      }
      return true;
    }

    /** The first half of a release: the id leaves both maps and the
        container is queued for cleanup. */
    method RemoveContainer(c: Container)
      modifies this
      ensures State() == old(State()).(activeContainers := old(activeContainers) - {c.id},
                                       allocatedContainers := old(allocatedContainers) - {c.id},
                                       containersToClean := Enqueue(old(containersToClean), c))
    {
      activeContainers := activeContainers - {c.id};
      allocatedContainers := allocatedContainers - {c.id};
      if c.id !in containersToClean {
        containersToClean := containersToClean[c.id := c];
      }
    }

    method GetTotalCapability() returns (r: Resource)
      requires Valid()
      ensures r == totalCapability && r == availableResource + usedResource
    {
      return totalCapability;
    }

    method GetAvailableResource() returns (r: Resource)
      requires Valid()
      ensures r == availableResource && r == totalCapability - usedResource
    {
      return availableResource;
    }

    method GetUsedResource() returns (r: Resource)
      requires Valid()
      ensures r == usedResource && r == totalCapability - availableResource
    {
      return usedResource;
    }

    /** addAvailableResource: a null resource is refused and changes nothing. */
    method AddAvailableResource(resource: Option<Resource>)
      modifies this
      ensures State() == AddAvailable(old(State()), resource)
      ensures old(Valid()) ==> Valid()
    {
      if resource.None? {
        return;
      }
      availableResource := availableResource + resource.value;
      usedResource := usedResource - resource.value;
    }

    /** deductAvailableResource, for a resource that is present. */
    method DeductAvailableResource(resource: Resource)
      modifies this
      ensures State() == DeductAvailable(old(State()), resource)
      ensures old(Valid()) ==> Valid()
    {
      availableResource := availableResource - resource;
      usedResource := usedResource + resource;
    }

    /** notifyFinishedApplication: the application is appended, and none of
        its containers is touched. */
    method NotifyFinishedApplication(applicationId: ApplicationId)
      requires Valid()
      modifies this
      ensures Valid()
      ensures State() == Notify(old(State()), applicationId)
    {
      finishedApplications := finishedApplications + [applicationId];
    }

    /** getNumContainers: never below the number of tracked containers, so
        never negative. */
    method GetNumContainers() returns (n: int)
      requires Valid()
      ensures n == numContainers && n >= |allocatedContainers| + |activeContainers|
      ensures n >= 0
    {
      return numContainers;
    }
  }

  /** A new node with one container allocated on it and confirmed running
      by a heartbeat that hands out nothing. */
  method ConfirmedOnNewNode(capacity: Resource, c: Container) returns (node: NodeManager)
    ensures fresh(node) && node.Valid()
    ensures node.activeContainers == map[c.id := c.(state := Running)]
    ensures node.allocatedContainers == map[] && node.containersToClean == map[]
    ensures node.availableResource == capacity - c.resource && node.numContainers == 1
  {
    node := new NodeManager(capacity);
    node.AllocateContainers(c.id.app, Some([c]));
    AllocateSingle(Init(capacity), c);
    ghost var afterAllocation := node.State();
    var running := c.(state := Running);
    var report := [("containers", [running])];
    assert Flatten(report) == [running] by {
      assert report[..0] == [];
    }
    var r := node.StatusUpdate(Some(report));
    ReconciledNothingQueued(afterAllocation, [running], node.State(), r);
    AllocateThenRun(Init(capacity), c);
    assert r.completedContainers == [] && r.containersToCleanUp == [];
  }

  /** Releasing that container gives its resource back, and the next
      heartbeat hands it out for cleanup, once. */
  method LifeOfOneContainer(capacity: Resource, c: Container)
  {
    var node := ConfirmedOnNewNode(capacity, c);
    var released := node.ReleaseContainer(c);
    assert released && node.availableResource == capacity && node.numContainers == 0;
    assert node.containersToClean == map[c.id := c];
    ghost var afterRelease := node.State();
    var r := node.StatusUpdate(Some([]));
    ReconciledEmptyReport(afterRelease, node.State(), r);
    ListsSingle(r.containersToCleanUp, c);
    assert r.containersToCleanUp == [c];
  }
}
