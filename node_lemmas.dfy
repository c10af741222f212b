/**
 * Properties of the node bookkeeping, proved about the functions of NodeSpec:
 * the ledger balances after every operation, allocation records exactly the
 * containers it is given, a heartbeat promotes, retires and flags containers
 * as the node reports them, release is a no-op on an untracked container,
 * and the cleanup set is handed out once.
 */
module NodeLemmas {
  import opened Records
  import opened NodeSpec

  // ---------------------------------------------------------------------------
  // Sizes of container maps

  lemma RemoveSize(m: map<ContainerId, Container>, k: ContainerId)
    requires k in m
    ensures |m - {k}| == |m| - 1
  {
    assert m.Keys == (m - {k}).Keys + {k};
  }

  lemma PutSize(m: map<ContainerId, Container>, k: ContainerId, c: Container)
    ensures |m[k := c]| == if k in m then |m| else |m| + 1
  {
    if k in m {
      assert m[k := c].Keys == m.Keys;
    } else {
      assert m[k := c].Keys == m.Keys + {k};
    }
  }

  // ---------------------------------------------------------------------------
  // Allocation

  /** Allocating a list moves its total resource from available to used,
      counts every container, and touches nothing but the allocated map. */
  lemma {:induction false} AllocateAllLedger(s: NodeState, cs: seq<Container>)
    ensures var r := AllocateAll(s, cs);
      && r.availableResource == s.availableResource - TotalResource(cs)
      && r.usedResource == s.usedResource + TotalResource(cs)
      && r.numContainers == s.numContainers + |cs|
      && r.totalCapability == s.totalCapability
      && r.activeContainers == s.activeContainers
      && r.containersToClean == s.containersToClean
      && r.finishedApplications == s.finishedApplications
    decreases |cs|
  {
    if cs != [] {
      AllocateAllLedger(s, cs[..|cs| - 1]);
    }
  }

  /** cs[i] is the last container of the list with its id. */
  predicate LastWithId(cs: seq<Container>, i: int)
    requires 0 <= i < |cs|
  {
    forall j :: i < j < |cs| ==> cs[j].id != cs[i].id
  }

  /** Allocating a list adds the list's ids to the allocated map, and ids not
      in the list keep their entries. */
  lemma {:induction false} AllocateAllKeys(s: NodeState, cs: seq<Container>)
    ensures var r := AllocateAll(s, cs);
      && r.allocatedContainers.Keys == s.allocatedContainers.Keys + Ids(cs)
      && (forall k :: k in s.allocatedContainers && k !in Ids(cs) ==>
            r.allocatedContainers[k] == s.allocatedContainers[k])
    decreases |cs|
  {
    if cs != [] {
      AllocateAllKeys(s, cs[..|cs| - 1]);
    }
  }

  /** Allocating a list inserts every container under its id: the last
      container given for an id is the one recorded. */
  lemma {:induction false} AllocateAllRecords(s: NodeState, cs: seq<Container>, i: int)
    requires 0 <= i < |cs| && LastWithId(cs, i)
    ensures var m := AllocateAll(s, cs).allocatedContainers;
      cs[i].id in m && m[cs[i].id] == cs[i]
    decreases |cs|
  {
    var front, c := cs[..|cs| - 1], cs[|cs| - 1];
    assert AllocateAll(s, cs) == AllocateOne(AllocateAll(s, front), c);
    if i < |cs| - 1 {
      assert cs[i] == front[i];
      assert LastWithId(front, i) by {
        forall j | i < j < |front| ensures front[j].id != front[i].id {
          assert front[j] == cs[j];
        }
      }
      AllocateAllRecords(s, front, i);
    }
  }

  /** Allocation keeps the node consistent: the counter rises at least as fast
      as the allocated map grows. */
  lemma {:induction false} AllocateAllConsistent(s: NodeState, cs: seq<Container>)
    requires Consistent(s)
    ensures Consistent(AllocateAll(s, cs))
    decreases |cs|
  {
    if cs != [] {
      var front, c := cs[..|cs| - 1], cs[|cs| - 1];
      AllocateAllConsistent(s, front);
      PutSize(AllocateAll(s, front).allocatedContainers, c.id, c);
    }
  }

  /** Allocating ids that are new to the node and distinct keeps allocated and
      active disjoint and the counter exact. */
  lemma {:induction false} AllocateAllTracked(s: NodeState, cs: seq<Container>)
    requires Tracked(s) && FreshIds(s, cs)
    ensures Tracked(AllocateAll(s, cs))
    decreases |cs|
  {
    if cs != [] {
      var front, c := cs[..|cs| - 1], cs[|cs| - 1];
      assert FreshIds(s, front) by {
        forall i | 0 <= i < |front| ensures front[i] == cs[i] { }
      }
      AllocateAllTracked(s, front);
      var p := AllocateAll(s, front);
      AllocateAllLedger(s, front);
      AllocateAllKeys(s, front);
      assert c.id !in Ids(front) by {
        forall i | 0 <= i < |front| ensures front[i].id != c.id {
          assert front[i] == cs[i];
        }
      }
      AllocateOneTracked(p, c);
    }
  }

  /** One allocation of an untracked id keeps allocated and active disjoint
      and the counter exact. */
  lemma AllocateOneTracked(p: NodeState, c: Container)
    requires Tracked(p) && !IsTracked(p, c.id)
    ensures Tracked(AllocateOne(p, c))
  {
    PutSize(p.allocatedContainers, c.id, c);
  }

  /** Allocating ids that are not queued for cleanup keeps the queued ids
      apart from the tracked ones. */
  lemma {:induction false} AllocateAllQueuedApart(s: NodeState, cs: seq<Container>)
    requires QueuedApart(s) && NotQueued(s, cs)
    ensures QueuedApart(AllocateAll(s, cs))
    decreases |cs|
  {
    if cs != [] {
      var front := cs[..|cs| - 1];
      assert NotQueued(s, front) by {
        forall i | 0 <= i < |front| ensures front[i] == cs[i] { }
      }
      AllocateAllQueuedApart(s, front);
      AllocateAllLedger(s, front);
    }
  }

  /** An allocation that reuses a queued id leaves that id both allocated and
      queued, so the next heartbeat asks the node to clean up a container
      just allocated. */
  lemma QueuedIdReused(s: NodeState, c: Container)
    requires c.id in s.containersToClean
    ensures var r := AllocateAll(s, [c]);
      c.id in r.allocatedContainers && c.id in r.containersToClean && !QueuedApart(r)
  {
    assert [c][..0] == [];
  }

  // ---------------------------------------------------------------------------
  // One reported container

  /** A reported container whose id is allocated leaves the allocated map;
      unless it reports completion it becomes active as reported, with no
      change to the ledger or the counter and nothing output. */
  lemma ReconcilePromotes(p: Pass, c: Container)
    requires c.id in p.node.allocatedContainers
    ensures var q := ReconcileOne(p, c);
      && c.id !in q.node.allocatedContainers
      && (c.state != Complete ==>
            && q.node.activeContainers == p.node.activeContainers[c.id := c]
            && q.node.allocatedContainers == p.node.allocatedContainers - {c.id}
            && q.node.availableResource == p.node.availableResource
            && q.node.usedResource == p.node.usedResource
            && q.node.numContainers == p.node.numContainers
            && q.completed == p.completed && q.toCleanUp == p.toCleanUp)
  {
  }

  /** A container reported complete is always output as completed. If the
      node tracked its id, the id leaves both maps, its resource goes back to
      available and the counter drops by one; otherwise nothing changes. */
  lemma ReconcileCompletes(p: Pass, c: Container)
    requires c.state == Complete
    ensures var q := ReconcileOne(p, c);
      && q.completed == p.completed + [c]
      && q.toCleanUp == p.toCleanUp
      && (IsTracked(p.node, c.id) ==>
            && q.node.allocatedContainers == p.node.allocatedContainers - {c.id}
            && q.node.activeContainers == p.node.activeContainers - {c.id}
            && q.node.availableResource == p.node.availableResource + c.resource
            && q.node.usedResource == p.node.usedResource - c.resource
            && q.node.numContainers == p.node.numContainers - 1
            && q.node.containersToClean == p.node.containersToClean)
      && (!IsTracked(p.node, c.id) ==> q.node == p.node)
  {
    var s := p.node;
    if c.id in s.allocatedContainers {
      assert ReconcileOne(p, c).node.activeContainers
          == s.activeContainers[c.id := c] - {c.id}
          == s.activeContainers - {c.id};
    }
  }

  /** A container reported as not complete is output for cleanup exactly when
      its id is in neither map; the node state is then left as it was. */
  lemma ReconcileFlagsUnknown(p: Pass, c: Container)
    requires c.state != Complete
    ensures var q := ReconcileOne(p, c);
      && q.completed == p.completed
      && (q.toCleanUp == p.toCleanUp + [c] <==> !IsTracked(p.node, c.id))
      && (IsTracked(p.node, c.id) ==> q.toCleanUp == p.toCleanUp)
      && (!IsTracked(p.node, c.id) ==> q.node == p.node)
  {
    if IsTracked(p.node, c.id) {
      assert |ReconcileOne(p, c).toCleanUp| == |p.toCleanUp|;
    }
  }

  lemma ReconcileOneConsistent(p: Pass, c: Container)
    requires Consistent(p.node)
    ensures Consistent(ReconcileOne(p, c).node)
  {
    var s := p.node;
    if c.id in s.allocatedContainers {
      RemoveSize(s.allocatedContainers, c.id);
      PutSize(s.activeContainers, c.id, c);
      if c.state == Complete {
        RemoveSize(s.activeContainers[c.id := c], c.id);
      }
    } else if c.state == Complete && c.id in s.activeContainers {
      RemoveSize(s.activeContainers, c.id);
    }
  }

  lemma ReconcileOneTracked(p: Pass, c: Container)
    requires Tracked(p.node)
    ensures Tracked(ReconcileOne(p, c).node)
  {
    var s := p.node;
    if c.id in s.allocatedContainers {
      RemoveSize(s.allocatedContainers, c.id);
      PutSize(s.activeContainers, c.id, c);
      if c.state == Complete {
        RemoveSize(s.activeContainers[c.id := c], c.id);
      }
    } else if c.state == Complete && c.id in s.activeContainers {
      RemoveSize(s.activeContainers, c.id);
    }
  }

  // ---------------------------------------------------------------------------
  // A whole heartbeat

  /** The containers of the list that report completion, in order. */
  function CompleteOnes(cs: seq<Container>): seq<Container>
  {
    if cs == [] then []
    else CompleteOnes(cs[..|cs| - 1]) + (if cs[|cs| - 1].state == Complete then [cs[|cs| - 1]] else [])
  }

  /** The heartbeat loop leaves the capability, the cleanup set and the
      finished applications alone. */
  lemma {:induction false} ReconcileAllFrame(s: NodeState, cs: seq<Container>)
    ensures var q := ReconcileAll(s, cs).node;
      && q.totalCapability == s.totalCapability
      && q.containersToClean == s.containersToClean
      && q.finishedApplications == s.finishedApplications
    decreases |cs|
  {
    if cs != [] {
      ReconcileAllFrame(s, cs[..|cs| - 1]);
    }
  }

  /** The heartbeat loop outputs every complete container, in order, and
      flags only reported containers that are not complete. */
  lemma {:induction false} ReconcileAllOutputs(s: NodeState, cs: seq<Container>)
    ensures var q := ReconcileAll(s, cs);
      && q.completed == CompleteOnes(cs)
      && (forall x :: x in q.toCleanUp ==> x in cs && x.state != Complete)
    decreases |cs|
  {
    if cs != [] {
      var front := cs[..|cs| - 1];
      ReconcileAllOutputs(s, front);
      var p := ReconcileAll(s, front);
      forall x | x in ReconcileAll(s, cs).toCleanUp ensures x in cs && x.state != Complete {
        if x in p.toCleanUp {
          assert x in front;
        }
      }
    }
  }

  /** After a heartbeat no reported id is left in the allocated map, and no
      other allocated entry was touched. */
  lemma {:induction false} ReconcileAllUnallocates(s: NodeState, cs: seq<Container>)
    ensures ReconcileAll(s, cs).node.allocatedContainers == s.allocatedContainers - Ids(cs)
    decreases |cs|
  {
    if cs != [] {
      ReconcileAllUnallocates(s, cs[..|cs| - 1]);
    }
  }

  /** A heartbeat in which nothing reports completion changes neither the
      ledger nor the counter: promotion is free. */
  lemma {:induction false} ReconcileAllWithoutCompletion(s: NodeState, cs: seq<Container>)
    requires forall i :: 0 <= i < |cs| ==> cs[i].state != Complete
    ensures var q := ReconcileAll(s, cs).node;
      && q.availableResource == s.availableResource
      && q.usedResource == s.usedResource
      && q.numContainers == s.numContainers
    decreases |cs|
  {
    if cs != [] {
      ReconcileAllWithoutCompletion(s, cs[..|cs| - 1]);
    }
  }

  /** The heartbeat loop only moves ids from allocated to active or drops
      them, and leaves the cleanup set alone: queued ids stay apart. */
  lemma {:induction false} ReconcileAllQueuedApart(s: NodeState, cs: seq<Container>)
    requires QueuedApart(s)
    ensures QueuedApart(ReconcileAll(s, cs).node)
    decreases |cs|
  {
    if cs != [] {
      var front := cs[..|cs| - 1];
      ReconcileAllQueuedApart(s, front);
      var p := ReconcileAll(s, front);
      var c := cs[|cs| - 1];
      var q := ReconcileOne(p, c).node;
      assert q.allocatedContainers.Keys + q.activeContainers.Keys
          <= p.node.allocatedContainers.Keys + p.node.activeContainers.Keys;
    }
  }

  lemma {:induction false} ReconcileAllConsistent(s: NodeState, cs: seq<Container>)
    requires Consistent(s)
    ensures Consistent(ReconcileAll(s, cs).node)
    decreases |cs|
  {
    if cs != [] {
      ReconcileAllConsistent(s, cs[..|cs| - 1]);
      ReconcileOneConsistent(ReconcileAll(s, cs[..|cs| - 1]), cs[|cs| - 1]);
    }
  }

  lemma {:induction false} ReconcileAllTracked(s: NodeState, cs: seq<Container>)
    requires Tracked(s)
    ensures Tracked(ReconcileAll(s, cs).node)
    decreases |cs|
  {
    if cs != [] {
      ReconcileAllTracked(s, cs[..|cs| - 1]);
      ReconcileOneTracked(ReconcileAll(s, cs[..|cs| - 1]), cs[|cs| - 1]);
    }
  }

  // ---------------------------------------------------------------------------
  // Release

  /** Releasing an untracked container is refused and changes nothing. */
  lemma ReleaseUntracked(s: NodeState, c: Container)
    requires !IsTracked(s, c.id)
    ensures Release(s, c) == (s, false)
  {
  }

  /** Releasing a tracked container removes its id from both maps, queues it
      for cleanup unless its id is queued already (the queued entry is then
      kept, and no other entry is touched), returns its resource and counts
      it out. */
  lemma ReleaseEffect(s: NodeState, c: Container)
    requires IsTracked(s, c.id)
    ensures var (r, released) := Release(s, c);
      && released
      && r.allocatedContainers == s.allocatedContainers - {c.id}
      && r.activeContainers == s.activeContainers - {c.id}
      && c.id in r.containersToClean
      && r.containersToClean.Keys == s.containersToClean.Keys + {c.id}
      && r.containersToClean == (if c.id in s.containersToClean then s.containersToClean
                                 else s.containersToClean[c.id := c])
      && r.availableResource == s.availableResource + c.resource
      && r.usedResource == s.usedResource - c.resource
      && r.numContainers == s.numContainers - 1
      && r.finishedApplications == s.finishedApplications
  {
  }

  /** Removing a tracked id from both maps shrinks them by at least one
      entry, and by exactly one when they are disjoint. */
  lemma RemoveTrackedSize(a: map<ContainerId, Container>, b: map<ContainerId, Container>, k: ContainerId)
    requires k in a || k in b
    ensures |a - {k}| + |b - {k}| <= |a| + |b| - 1
    ensures a.Keys !! b.Keys ==> |a - {k}| + |b - {k}| == |a| + |b| - 1
  {
    if k in a {
      RemoveSize(a, k);
    } else {
      assert a - {k} == a;
    }
    if k in b {
      RemoveSize(b, k);
    } else {
      assert b - {k} == b;
    }
  }

  /** Release keeps the node consistent, and tracking exact if it was. */
  lemma ReleaseKeepsInvariants(s: NodeState, c: Container)
    requires Consistent(s)
    ensures Consistent(Release(s, c).0)
    ensures Tracked(s) ==> Tracked(Release(s, c).0)
  {
    if IsTracked(s, c.id) {
      var r := Release(s, c).0;
      assert r.allocatedContainers == s.allocatedContainers - {c.id};
      assert r.activeContainers == s.activeContainers - {c.id};
      assert r.numContainers == s.numContainers - 1;
      RemoveTrackedSize(s.allocatedContainers, s.activeContainers, c.id);
    }
  }

  /** A release takes the id out of both maps before queuing it, so queued
      ids stay apart from tracked ones. */
  lemma ReleaseQueuedApart(s: NodeState, c: Container)
    requires QueuedApart(s)
    ensures QueuedApart(Release(s, c).0)
  {
    if IsTracked(s, c.id) {
      var r := Release(s, c).0;
      assert r.containersToClean.Keys == s.containersToClean.Keys + {c.id};
      assert r.allocatedContainers.Keys + r.activeContainers.Keys
          == (s.allocatedContainers.Keys + s.activeContainers.Keys) - {c.id};
    }
  }

  /** A heartbeat empties the cleanup set, so afterwards nothing queued is
      tracked. */
  lemma ReconciledQueuedApart(s: NodeState, cs: seq<Container>, s': NodeState, r: NodeResponse)
    requires Reconciled(s, cs, s', r)
    ensures QueuedApart(s') && s'.containersToClean == map[]
  {
  }

  // ---------------------------------------------------------------------------
  // Flattening a report

  /** Flattening two runs of entries is flattening each, one after the other:
      the reported lists keep their order and their repetitions. */
  lemma {:induction false} FlattenAppend(a: seq<(string, seq<Container>)>, b: seq<(string, seq<Container>)>)
    ensures Flatten(a + b) == Flatten(a) + Flatten(b)
    decreases |b|
  {
    if b != [] {
      var front := b[..|b| - 1];
      assert (a + b)[..|a + b| - 1] == a + front;
      FlattenAppend(a, front);
    } else {
      assert a + b == a;
    }
  }

  /** A single entry flattens to its own list, in its own order. */
  lemma FlattenSingle(e: (string, seq<Container>))
    ensures Flatten([e]) == e.1
  {
    assert [e][..0] == [];
  }

  // ---------------------------------------------------------------------------
  // Draining the cleanup set

  /** An empty cleanup set is listed as nothing: after one heartbeat drained
      it, the next heartbeat hands out none of the same containers. */
  lemma ListsEmpty(xs: seq<Container>)
    requires Lists(xs, map[])
    ensures xs == []
  {
  }

  /** A listing holds exactly the queued containers. */
  lemma ListsMembers(xs: seq<Container>, m: map<ContainerId, Container>)
    requires Lists(xs, m)
    ensures forall x :: x in xs <==> x in m.Values
  {
    forall x | x in m.Values ensures x in xs {
      var k :| k in m && m[k] == x;
      var i :| 0 <= i < |xs| && xs[i].id == k;
    }
  }

  /** The response update builds: the loop's outputs, the finished
      applications, and the drained cleanup set after the flagged containers;
      the state it leaves is consistent, and tracks exactly if it did before. */
  lemma DrainedResponse(s: NodeState, cs: seq<Container>, drained: seq<Container>)
    requires Consistent(s) && Lists(drained, s.containersToClean)
    ensures var pass := ReconcileAll(s, cs);
      && Reconciled(s, cs, Drain(pass.node),
                    NodeResponse(s.finishedApplications, pass.completed, pass.toCleanUp + drained))
      && Consistent(Drain(pass.node))
      && (Tracked(s) ==> Tracked(Drain(pass.node)))
  {
    var pass := ReconcileAll(s, cs);
    var out := pass.toCleanUp + drained;
    assert out[..|pass.toCleanUp|] == pass.toCleanUp;
    assert out[|pass.toCleanUp|..] == drained;
    ReconcileAllConsistent(s, cs);
    if Tracked(s) {
      ReconcileAllTracked(s, cs);
    }
  }

  /** A listing of a one-entry cleanup set is that one container. */
  lemma ListsSingle(xs: seq<Container>, c: Container)
    requires Lists(xs, map[c.id := c])
    ensures xs == [c]
  {
    assert |map[c.id := c]| == 1;
  }

  /** What a heartbeat hands out for cleanup: every container that was
      queued, and besides those only reported containers that are not
      complete. */
  lemma ReconciledCleanUp(s: NodeState, cs: seq<Container>, s': NodeState, r: NodeResponse)
    requires Reconciled(s, cs, s', r)
    ensures forall x :: x in s.containersToClean.Values ==> x in r.containersToCleanUp
    ensures forall x :: x in r.containersToCleanUp ==>
              x in s.containersToClean.Values || (x in cs && x.state != Complete)
  {
    var pass := ReconcileAll(s, cs);
    var n := |pass.toCleanUp|;
    var out := r.containersToCleanUp;
    assert out == out[..n] + out[n..];
    ListsMembers(out[n..], s.containersToClean);
    ReconcileAllOutputs(s, cs);
  }

  /** A heartbeat that reports nothing only hands out the cleanup set, and
      empties it. */
  lemma ReconciledEmptyReport(s: NodeState, s': NodeState, r: NodeResponse)
    requires Reconciled(s, [], s', r)
    ensures s' == Drain(s)
    ensures r.completedContainers == [] && Lists(r.containersToCleanUp, s.containersToClean)
  {
    assert r.containersToCleanUp[0..] == r.containersToCleanUp;
  }

  /** With nothing queued for cleanup, a heartbeat's state and outputs are
      those of its loop alone. */
  lemma ReconciledNothingQueued(s: NodeState, cs: seq<Container>, s': NodeState, r: NodeResponse)
    requires s.containersToClean == map[] && Reconciled(s, cs, s', r)
    ensures var pass := ReconcileAll(s, cs);
      && s' == pass.node
      && r.completedContainers == pass.completed
      && r.containersToCleanUp == pass.toCleanUp
  {
    var pass := ReconcileAll(s, cs);
    ReconcileAllFrame(s, cs);
    var out := r.containersToCleanUp;
    ListsEmpty(out[|pass.toCleanUp|..]);
    assert out == out[..|pass.toCleanUp|] + out[|pass.toCleanUp|..];
  }

  /** Drain-once: a heartbeat right after another, reporting nothing, hands
      out no cleanup and changes nothing, while the finished applications are
      reported again. */
  lemma DrainOnce(s: NodeState, cs: seq<Container>, s1: NodeState, r1: NodeResponse,
                  s2: NodeState, r2: NodeResponse)
    requires Reconciled(s, cs, s1, r1) && Reconciled(s1, [], s2, r2)
    ensures s2 == s1
    ensures r2.containersToCleanUp == [] && r2.completedContainers == []
    ensures r2.finishedApplications == r1.finishedApplications
  {
    ReconcileAllFrame(s, cs);
    assert s1.containersToClean == map[];
    ListsEmpty(r2.containersToCleanUp[0..]);
    assert r2.containersToCleanUp == r2.containersToCleanUp[0..];
  }

  // ---------------------------------------------------------------------------
  // Life of one container

  lemma AllocateSingle(s: NodeState, c: Container)
    ensures AllocateAll(s, [c]) == AllocateOne(s, c)
  {
    assert [c][..0] == [];
  }

  lemma ReconcileSingle(s: NodeState, c: Container)
    ensures ReconcileAll(s, [c]) == ReconcileOne(Pass(s, [], []), c)
  {
    assert [c][..0] == [];
  }

  /** A container allocated on a node where its id is untracked and then
      reported running is active as reported, with its resource still
      deducted and nothing output. */
  lemma AllocateThenRun(s: NodeState, c: Container)
    requires !IsTracked(s, c.id)
    ensures var running := c.(state := Running);
      var r := ReconcileAll(AllocateAll(s, [c]), [running]);
      && r.node.activeContainers == s.activeContainers[c.id := running]
      && r.node.allocatedContainers == s.allocatedContainers
      && r.node.availableResource == s.availableResource - c.resource
      && r.node.usedResource == s.usedResource + c.resource
      && r.node.numContainers == s.numContainers + 1
      && r.completed == [] && r.toCleanUp == []
  {
    var running := c.(state := Running);
    var a := AllocateAll(s, [c]);
    AllocateSingle(s, c);
    assert a.allocatedContainers - {c.id} == s.allocatedContainers;
    ReconcileSingle(a, running);
    ReconcilePromotes(Pass(a, [], []), running);
  }

  /** Reporting that running container complete retires it: the ledger and
      the counter are back where they were before the allocation, and the
      container is reported completed exactly once. */
  lemma RunThenComplete(s: NodeState, c: Container)
    requires !IsTracked(s, c.id)
    ensures var done := c.(state := Complete);
      var r := ReconcileAll(AllocateAll(s, [c]), [c.(state := Running)]);
      var f := ReconcileAll(r.node, [done]);
      && f.node.activeContainers == s.activeContainers
      && f.node.allocatedContainers == s.allocatedContainers
      && f.node.availableResource == s.availableResource
      && f.node.usedResource == s.usedResource
      && f.node.numContainers == s.numContainers
      && f.completed == [done] && f.toCleanUp == []
  {
    var done := c.(state := Complete);
    AllocateThenRun(s, c);
    var r := ReconcileAll(AllocateAll(s, [c]), [c.(state := Running)]);
    ReconcileSingle(r.node, done);
    ReconcileCompletes(Pass(r.node, [], []), done);
    assert s.activeContainers[c.id := c.(state := Running)] - {c.id} == s.activeContainers;
  }
}
