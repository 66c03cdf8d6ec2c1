/** The VM lifecycle rules: which actions and retries are allowed, and what a task outcome means for its VM. */
module Vms {
  import opened Wrappers
  import opened Ipv4
  import opened Tasks

  datatype VmStatus = Provisioning | Up | Stopped | Error | Deleting | Deleted

  datatype VmAction = Start | Stop | Reboot | Reinstall | Delete

  datatype Lifecycle = Lifecycle(status: VmStatus, lastTaskStatus: Option<TaskStatus>)

  predicate HasActiveTask(status: Option<TaskStatus>) {
    status.Some? && IsActive(status.value)
  }

  predicate ActionAllowedForStatus(action: VmAction, status: VmStatus) {
    match status
    case Deleted => false
    case Deleting => false
    case Provisioning => false
    case Up => action in {Stop, Reboot, Reinstall, Delete}
    case Stopped => action in {Start, Reinstall, Delete}
    case Error => action in {Start, Reinstall, Delete}
  }

  /** `validate_action_allowed` */
  predicate ActionAllowed(action: VmAction, l: Lifecycle) {
    match l.status
    case Deleted => false
    case Deleting => false
    case Provisioning => false
    case _ => !HasActiveTask(l.lastTaskStatus) && ActionAllowedForStatus(action, l.status)
  }

  predicate RetryAllowedForStatus(kind: TaskKind, status: VmStatus) {
    match kind
    case CreateVm(request) => request.vmId.Some? && status == Error
    case StartVm(_) => ActionAllowedForStatus(Start, status)
    case StopVm(_) => ActionAllowedForStatus(Stop, status)
    case RebootVm(_) => ActionAllowedForStatus(Reboot, status)
    case ReinstallVm(_, _, _) => ActionAllowedForStatus(Reinstall, status)
    case DeleteVm(_) => ActionAllowedForStatus(Delete, status)
  }

  /** `validate_retry_allowed` */
  predicate RetryAllowed(kind: TaskKind, l: Lifecycle) {
    !HasActiveTask(l.lastTaskStatus) && RetryAllowedForStatus(kind, l.status)
  }

  /** The task that an admin action on a VM queues; a reinstall carries the spec read from the VM row. */
  function ActionKind(action: VmAction, vm: VmId, image: string, diskGb: nat): TaskKind {
    match action
    case Start => StartVm(vm)
    case Stop => StopVm(vm)
    case Reboot => RebootVm(vm)
    case Reinstall => ReinstallVm(vm, image, diskGb)
    case Delete => DeleteVm(vm)
  }

  datatype VmUpdate = VmUpdate(vm: VmId, status: VmStatus, deleted: bool, releaseIp: bool, clearIp: bool)

  /** `next_vm_status`: what a task in this status does to its VM row, if anything. */
  function NextVmStatus(kind: TaskKind, status: TaskStatus): Option<VmUpdate> {
    match (status, kind)
    case (Running, CreateVm(r)) =>
      if r.vmId.None? then None else Some(VmUpdate(r.vmId.value, Provisioning, false, false, false))
    case (Succeeded, CreateVm(r)) =>
      if r.vmId.None? then None else Some(VmUpdate(r.vmId.value, Up, false, false, false))
    case (Failed, CreateVm(r)) =>
      if r.vmId.None? then None else Some(VmUpdate(r.vmId.value, Error, false, true, true))
    case (Canceled, CreateVm(r)) =>
      if r.vmId.None? then None else Some(VmUpdate(r.vmId.value, Error, false, true, true))
    case (Succeeded, StartVm(vm)) => Some(VmUpdate(vm, Up, false, false, false))
    case (Succeeded, StopVm(vm)) => Some(VmUpdate(vm, Stopped, false, false, false))
    case (Succeeded, RebootVm(vm)) => Some(VmUpdate(vm, Up, false, false, false))
    case (Pending, ReinstallVm(vm, _, _)) => Some(VmUpdate(vm, Provisioning, false, false, false))
    case (Assigned, ReinstallVm(vm, _, _)) => Some(VmUpdate(vm, Provisioning, false, false, false))
    case (Running, ReinstallVm(vm, _, _)) => Some(VmUpdate(vm, Provisioning, false, false, false))
    case (Succeeded, ReinstallVm(vm, _, _)) => Some(VmUpdate(vm, Up, false, false, false))
    case (Failed, ReinstallVm(vm, _, _)) => Some(VmUpdate(vm, Error, false, false, false))
    case (Canceled, ReinstallVm(vm, _, _)) => Some(VmUpdate(vm, Error, false, false, false))
    case (Pending, DeleteVm(vm)) => Some(VmUpdate(vm, Deleting, false, false, false))
    case (Assigned, DeleteVm(vm)) => Some(VmUpdate(vm, Deleting, false, false, false))
    case (Running, DeleteVm(vm)) => Some(VmUpdate(vm, Deleting, false, false, false))
    case (Succeeded, DeleteVm(vm)) => Some(VmUpdate(vm, Deleted, true, true, true))
    case (Failed, DeleteVm(vm)) => Some(VmUpdate(vm, Error, false, false, false))
    case (Canceled, DeleteVm(vm)) => Some(VmUpdate(vm, Error, false, false, false))
    case _ => None
  }

  /** The image a succeeded reinstall leaves on the VM row. */
  function NextImage(kind: TaskKind, status: TaskStatus): Option<string> {
    match (status, kind)
    case (Succeeded, ReinstallVm(_, image, _)) => Some(image)
    case _ => None
  }

  datatype RetryUpdate = RetryUpdate(vm: VmId, status: Option<VmStatus>, ip: Option<Ip>)

  /** `retry_vm_update` */
  function RetryVmUpdate(kind: TaskKind): Option<RetryUpdate> {
    match kind
    case CreateVm(r) =>
      if r.vmId.None? then None else Some(RetryUpdate(r.vmId.value, Some(Provisioning), r.assignedIp))
    case ReinstallVm(vm, _, _) => Some(RetryUpdate(vm, Some(Provisioning), None))
    case DeleteVm(vm) => Some(RetryUpdate(vm, Some(Deleting), None))
    case StartVm(vm) => Some(RetryUpdate(vm, None, None))
    case StopVm(vm) => Some(RetryUpdate(vm, None, None))
    case RebootVm(vm) => Some(RetryUpdate(vm, None, None))
  }

  /** Which VM statuses capacity admission counts. */
  predicate Counted(status: VmStatus) {
    status in {Provisioning, Up, Stopped, Deleting}
  }

  /**
   What the status of a VM must be, given the last task recorded on it. Provisioning, Deleting and
   Deleted mirror the task exactly; a power task in flight or failed leaves a status it was admitted in.
   */
  predicate Mirrors(kind: TaskKind, task: TaskStatus, vm: VmStatus) {
    match kind
    case CreateVm(_) =>
      if IsActive(task) then vm == Provisioning else if task == Succeeded then vm == Up else vm == Error
    case ReinstallVm(_, _, _) =>
      if IsActive(task) then vm == Provisioning else if task == Succeeded then vm == Up else vm == Error
    case DeleteVm(_) =>
      if IsActive(task) then vm == Deleting else if task == Succeeded then vm == Deleted else vm == Error
    case StartVm(_) => if task == Succeeded then vm == Up else vm in {Stopped, Error}
    case StopVm(_) => if task == Succeeded then vm == Stopped else vm == Up
    case RebootVm(_) => vm == Up
  }
}
