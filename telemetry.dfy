/**
 * The records the `systeminformation` probes return, as far as the dashboard
 * looks into them, and the outcome of invoking one probe.
 */
module Telemetry {
  import opened Wrappers

  /** A probe's promise: resolved with a value, or rejected. */
  datatype Probe<T> = Resolved(value: T) | Rejected {

    /** `probe.catch(() => fallback)`. */
    function OrElse(fallback: T): T {
      if Resolved? then value else fallback
    }
  }

  /** A payload the core passes through without looking inside it (cpu, osInfo, temperature, users, services). */
  datatype Opaque = Opaque(json: string)

  /** One entry of a container's `ports`; `publicPort` is absent for unpublished ports. */
  datatype Port = Port(publicPort: Option<nat>, privatePort: nat)

  /** `si.dockerContainers()` record. */
  datatype Container = Container(
    id: string, name: string, image: string, command: string, state: string, ports: seq<Port>)

  datatype NetIO = NetIO(rx: Option<real>, tx: Option<real>, wx: Option<real>)

  datatype BlockIO = BlockIO(r: Option<real>, w: Option<real>)

  /**
   * `si.dockerContainerStats('*')` sample. Each metric may arrive under a
   * camelCase or a snake_case name, or be missing.
   */
  datatype StatSample = StatSample(
    id: string,
    cpuPercent: Option<real>, cpu_percent: Option<real>,
    memUsage: Option<real>, mem_usage: Option<real>,
    memLimit: Option<real>, mem_limit: Option<real>,
    netIO: Option<NetIO>, blockIO: Option<BlockIO>)

  /** One entry of `si.processes().list`. */
  datatype Process = Process(pid: int, name: string, cpu: real, mem: real, user: string, state: string)

  /** `si.processes()`: the counters and the list. */
  datatype Processes = Processes(all: Option<real>, running: Option<real>, sleeping: Option<real>, list: seq<Process>)

  /** `si.fsSize()` entry. */
  datatype FsEntry = FsEntry(fs: string, fsType: string, size: int, used: int, use: real, mount: string)

  /** `si.diskLayout()` entry; `kind` is the probe's `type` field. */
  datatype Disk = Disk(name: string, kind: string, size: int)

  /** `si.networkConnections()` entry. */
  datatype Connection = Connection(protocol: string, localAddress: string, peerAddress: string, state: string)

  /**
   * An API route's JSON reply: the body, or an error status whose message
   * starts with `messagePrefix` (the rejection's text follows it).
   */
  datatype Response<T> = Ok(body: T) | ServerError(status: int, messagePrefix: string)

  /** JavaScript truthiness of an optional number: absent and 0 are falsy. */
  predicate Truthy(n: Option<real>) {
    n.Some? && n.value != 0.0
  }

  /** `a || b` where `a` is an optional number. */
  function Or(a: Option<real>, b: real): real {
    if Truthy(a) then a.value else b
  }
}
