/** The task and request types that master and agent share. */
module Tasks {
  import opened Wrappers
  import opened Ipv4
  import Cidr

  type NodeId = nat
  type VmId = nat
  type TaskId = nat
  type PoolId = nat
  type AllocationId = nat

  datatype TaskStatus = Pending | Assigned | Running | Succeeded | Failed | Canceled

  /**
   A create request. Addresses are numbers here: printed text and number determine each other
   (`Ipv4.DisplayInjective`). `textsValid` stands for the verdict of the name, image and key validators.
   */
  datatype CreateVmRequest = CreateVmRequest(
    nodeId: NodeId,
    vmId: Option<VmId>,
    poolId: Option<PoolId>,
    planId: Option<nat>,
    assignedIp: Option<Ip>,
    assignedPrefix: Option<nat>,
    assignedGateway: Option<Ip>,
    textsValid: bool,
    image: string,
    cpu: nat,
    memoryMb: nat,
    diskGb: nat)

  datatype TaskKind =
    | CreateVm(request: CreateVmRequest)
    | StartVm(vm: VmId)
    | StopVm(vm: VmId)
    | RebootVm(vm: VmId)
    | ReinstallVm(vm: VmId, image: string, diskGb: nat)
    | DeleteVm(vm: VmId)

  function Printed(ip: Option<Ip>): Option<string> {
    match ip
    case None => None
    case Some(a) => Some(Display(a))
  }

  predicate ValidSizes(r: CreateVmRequest) {
    && 1 <= r.cpu <= 32
    && 128 <= r.memoryMb <= 262144
    && 1 <= r.diskGb <= 4096
  }

  predicate ValidNetwork(r: CreateVmRequest) {
    Cidr.ValidAssignedNetwork(Printed(r.assignedIp), r.assignedPrefix, Printed(r.assignedGateway))
  }

  /** `validate_for_mvp` */
  predicate ValidForMvp(r: CreateVmRequest) {
    r.textsValid && ValidSizes(r) && ValidNetwork(r)
  }

  /** `retry_vm_id` and `task_vm_id`: the VM a task is about. */
  function VmOf(kind: TaskKind): Option<VmId> {
    match kind
    case CreateVm(request) => request.vmId
    case StartVm(vm) => Some(vm)
    case StopVm(vm) => Some(vm)
    case RebootVm(vm) => Some(vm)
    case ReinstallVm(vm, _, _) => Some(vm)
    case DeleteVm(vm) => Some(vm)
  }

  predicate IsActive(status: TaskStatus) {
    status in {Pending, Assigned, Running}
  }

  /** The transitions an agent may report. */
  predicate ValidAgentTransition(current: TaskStatus, next: TaskStatus) {
    match (current, next)
    case (Assigned, Running) => true
    case (Assigned, Failed) => true
    case (Assigned, Canceled) => true
    case (Running, Succeeded) => true
    case (Running, Failed) => true
    case (Running, Canceled) => true
    case _ => false
  }

  predicate AgentMayReport(status: TaskStatus) {
    status in {Running, Succeeded, Failed, Canceled}
  }

  predicate AdminMayCancel(status: TaskStatus) {
    status in {Pending, Assigned}
  }

  /** How many more status changes a task can see. */
  function Rank(status: TaskStatus): nat {
    match status
    case Pending => 3
    case Assigned => 2
    case Running => 1
    case _ => 0
  }
}
