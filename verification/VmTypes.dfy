// The records the scheduler and the migration engine share.
module VmTypes {

  // What the strategy thinks a virtual machine is doing.
  datatype VmState = IoState | OtherState | IdleState

  // The hypervisor's lifecycle notifications (virDomainEventType).
  datatype Event =
    | Defined
    | Undefined
    | Started
    | Suspended
    | Resumed
    | Stopped
    | Shutdown
    | PmSuspended
    | Crashed

  // realCpu is -1 while the physical CPU is unknown.
  datatype VmInfo = VmInfo(
    domId: int,
    realCpu: int,
    cpuUsage: real,
    packetsPerSec: real,
    packetsPerSecHistory: real,
    homeNode: int,
    event: Event)

  // A default-constructed record, as operator[] inserts for an unknown key.
  const BLANK_VM := VmInfo(-1, -1, 0.0, 0.0, 0.0, 0, Undefined)

  datatype Decision = Decision(domId: int, cpuNode: int, memNode: int)
}
