/** Node rows: whether a node takes a task, and whether it has room for a VM. */
module Nodes {
  import opened Wrappers
  import opened Tasks

  const HEARTBEAT_STALE_AFTER_SECONDS := 2 * 60 * 60
  const U64_MAX := 0xFFFF_FFFF_FFFF_FFFF

  datatype LibvirtStatus = NotChecked | Available | Unavailable

  datatype NodeRow = NodeRow(
    registered: bool,
    schedulingEnabled: bool,
    online: bool,
    agentVersion: Option<string>,
    lastSeenAt: Option<int>,
    libvirt: LibvirtStatus,
    cpuTotal: nat,
    memoryTotal: nat,
    diskTotal: nat)

  /** `validate_node_task_admission` */
  predicate AcceptsTask(n: NodeRow, kind: TaskKind, now: int) {
    && n.registered
    && n.schedulingEnabled
    && (kind.CreateVm? ==>
          && n.online
          && n.agentVersion.Some? && n.agentVersion.value != ""
          && n.lastSeenAt.Some? && now - n.lastSeenAt.value <= HEARTBEAT_STALE_AFTER_SECONDS
          && n.libvirt != Unavailable)
  }

  datatype Dimension = Cpu | Memory | Disk

  /** What a node reports in total, in the unit that requests use; zero means unknown. */
  function Total(n: NodeRow, d: Dimension): nat {
    match d
    case Cpu => n.cpuTotal
    case Memory => n.memoryTotal / 1024 / 1024
    case Disk => n.diskTotal / 1024 / 1024 / 1024
  }

  function Requested(r: CreateVmRequest, d: Dimension): nat {
    match d
    case Cpu => r.cpu
    case Memory => r.memoryMb
    case Disk => r.diskGb
  }

  function SaturatingAdd(x: nat, y: nat): nat {
    if x + y > U64_MAX then U64_MAX else x + y
  }

  datatype Capacity = Capacity(cpu: nat, memoryMb: nat, diskGb: nat)

  predicate Fits(committed: nat, requested: nat, total: nat) {
    total == 0 || SaturatingAdd(committed, requested) <= total
  }

  /** `validate_capacity_snapshot` */
  predicate CapacityAdmits(r: CreateVmRequest, n: NodeRow, committed: Capacity) {
    && Fits(committed.cpu, r.cpu, Total(n, Cpu))
    && Fits(committed.memoryMb, r.memoryMb, Total(n, Memory))
    && Fits(committed.diskGb, r.diskGb, Total(n, Disk))
  }
}
