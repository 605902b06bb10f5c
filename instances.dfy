/** The records the agent keeps per instance: its lifecycle record and its launch configuration. */
module Instances {
  import opened Wrappers

  /** Go's `uint32`: the width of an instance id. */
  newtype Uint32 = x: int | 0 <= x <= 0xFFFF_FFFF

  /** Go's `int` on a 64-bit platform. */
  newtype Int64 = x: int | -0x8000_0000_0000_0000 <= x <= 0x7FFF_FFFF_FFFF_FFFF

  /** A wall-clock instant, as Go's `time.Time`; only its identity matters to the store. */
  type Time = int

  /** The four statuses of an instance. */
  datatype Status = Offline | Starting | Running | Error {

    /** The string the status is stored as; `Running` is stored as "Online". */
    function Name(): string
    {
      match this
      case Offline => "Offline"
      case Starting => "Starting"
      case Running => "Online"
      case Error => "Error"
    }
  }

  /** The stored names tell the four statuses apart. */
  lemma NamesDistinct(a: Status, b: Status)
    ensures a.Name() == b.Name() <==> a == b
  {
  }

  /** The stored name of `Running` is "Online", not "Running"; no status is stored as "Running". */
  lemma RunningIsStoredAsOnline(s: Status)
    ensures Running.Name() == "Online"
    ensures s.Name() != "Running"
  {
  }

  /** The launch specification of an instance. */
  datatype Config = Config(
    dataDirectory: string,  // root directory of the server
    serverJar: string,      // path of the server's .jar file
    args: seq<string>,      // command-line arguments for the JVM, in order
    listenPort: Int64)      // host port; no range check is made

  /** The lifecycle record of an instance. */
  datatype Instance = Instance(
    id: Uint32,
    status: Status,
    startTime: Option<Time>,  // documented as absent when not running
    containerId: string)      // empty until a container has been created

  /** Whether a container has been created for the instance. */
  predicate HasContainer(inst: Instance)
  {
    inst.containerId != ""
  }

  /** The instance with its container id replaced: the mapper of `SetContainerId`. */
  function WithContainerId(inst: Instance, containerId: string): Instance
  {
    inst.(containerId := containerId)
  }

  /** The instance with its status replaced, and its start time set to `now` when the new status
      is `Starting`: the mapper of `SetStatus`. */
  function WithStatus(inst: Instance, status: Status, now: Time): Instance
  {
    if status == Starting then inst.(status := status, startTime := Some(now))
    else inst.(status := status)
  }

  /** Setting the container id changes that field only. */
  lemma WithContainerIdChangesOnlyContainerId(inst: Instance, containerId: string)
    ensures var r := WithContainerId(inst, containerId);
      && r.containerId == containerId
      && r.id == inst.id && r.status == inst.status && r.startTime == inst.startTime
      && (HasContainer(r) <==> containerId != "")
  {
  }

  /** Setting the status sets it, stamps the start time exactly when the new status is
      `Starting`, never clears a start time, and leaves id and container id alone. */
  lemma WithStatusEffect(inst: Instance, status: Status, now: Time)
    ensures var r := WithStatus(inst, status, now);
      && r.status == status
      && r.startTime == (if status == Starting then Some(now) else inst.startTime)
      && (inst.startTime.Some? ==> r.startTime.Some?)
      && r.id == inst.id && r.containerId == inst.containerId
  {
  }
}
