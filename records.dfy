/**
 * Value types the node bookkeeping works with: resources, container and
 * application identifiers, containers with their reported state, and the
 * response handed back to the node after a heartbeat.
 */
module Records {

  /** A resource record, reduced to its memory amount. Nothing bounds it:
      over-allocation drives the available amount below zero. */
  type Resource = int

  /** An application, identified by its number. */
  type ApplicationId = int

  /** A container id: the owning application and a sequence number. */
  datatype ContainerId = ContainerId(app: ApplicationId, sequence: int)

  /** The lifecycle state a container was last reported in. */
  datatype ContainerState = Allocated | Running | Complete

  datatype Container = Container(id: ContainerId, resource: Resource, state: ContainerState)

  /** What a heartbeat returns to the node: finished applications, the
      containers seen completing, and the containers the node must clean up. */
  datatype NodeResponse = NodeResponse(
    finishedApplications: seq<ApplicationId>,
    completedContainers: seq<Container>,
    containersToCleanUp: seq<Container>)

  /** A Java reference that may be null. */
  datatype Option<T> = None | Some(value: T)

  /** The response to a null heartbeat: everything empty. */
  function EmptyResponse(): (r: NodeResponse)
    ensures r.finishedApplications == [] && r.completedContainers == [] && r.containersToCleanUp == []
  {
    NodeResponse([], [], [])
  }
}
