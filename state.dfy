/**
 * The decoded `/state` snapshot of a Mesos master: its slaves (agents) with their three resource
 * pools and free-form attributes, and its frameworks with their used and offered resources.
 */
module MasterState {
  import opened Ranges

  /** `json.RawMessage`: an attribute value as undecoded JSON text. */
  type RawMessage = string

  /** A slave resource pool: cpus, disk and mem as the master reports them, and its port ranges. */
  datatype Resources = Resources(cpus: real, disk: real, mem: real, ports: seq<Range>)

  /**
   * A slave. `attributes` lists the entries of the attribute object in the order a Go `range`
   * over the map visits them; Go leaves that order unspecified, so every property stated about
   * attributes holds for every order.
   */
  datatype Slave = Slave(
    pid: string,
    hostname: string,
    used: Resources,
    unreserved: Resources,
    total: Resources,
    attributes: seq<(string, RawMessage)>)

  /** `framework_resources`. */
  datatype FrameworkResources = FrameworkResources(cpus: real, disk: real, mem: real)

  /** A framework; its task lists are never read by the collector and are left out. */
  datatype Framework = Framework(
    active: bool,
    name: string,
    used: FrameworkResources,
    offered: FrameworkResources)

  /** The snapshot one scrape works on. */
  datatype State = State(slaves: seq<Slave>, frameworks: seq<Framework>)
}
