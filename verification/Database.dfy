/**
 The master's tables and what each request handler does to them. A handler is one transaction:
 it either commits a new database or leaves the old one, which is `None` here. The row-count
 guards of the updates are kept, so that a lemma can show that they never fire.
 */
module Database {
  import opened Wrappers
  import opened Ipv4
  import opened Tasks
  import opened Vms
  import opened Ipam
  import opened Nodes
  import opened Sums

  datatype Task = Task(node: NodeId, kind: TaskKind, status: TaskStatus, createdAt: int)

  datatype Vm = Vm(
    node: NodeId,
    pool: Option<PoolId>,
    assignedIp: Option<Ip>,
    image: string,
    cpu: nat,
    memoryMb: nat,
    diskGb: nat,
    status: VmStatus,
    lastTask: Option<TaskId>,
    deletedAt: Option<int>)

  datatype Db = Db(
    nodes: map<NodeId, NodeRow>,
    pools: map<PoolId, Pool>,
    tasks: map<TaskId, Task>,
    vms: map<VmId, Vm>,
    allocations: Allocations,
    clock: int)

  // ----- Parts of handlers -----

  /** The VM row joined with the status of its last task. */
  function LifecycleOf(db: Db, vm: VmId): Lifecycle
    requires vm in db.vms
  {
    var last := db.vms[vm].lastTask;
    Lifecycle(db.vms[vm].status,
              if last.Some? && last.value in db.tasks then Some(db.tasks[last.value].status) else None)
  }

  predicate VmOnNode(db: Db, vm: VmId, node: NodeId) {
    vm in db.vms && db.vms[vm].node == node
  }

  /** `apply_task_status_in_tx`; nothing when the guarded update touches no row. */
  function ApplyTaskStatus(db: Db, t: TaskId, now: int): Option<Db>
    requires t in db.tasks
  {
    var task := db.tasks[t];
    match NextVmStatus(task.kind, task.status)
    case None => Some(db)
    case Some(u) =>
      if !VmOnNode(db, u.vm, task.node) then None
      else
        var vm := db.vms[u.vm];
        var image := NextImage(task.kind, task.status);
        var vm' := vm.(status := u.status, lastTask := Some(t),
                       deletedAt := if u.deleted then Some(now) else vm.deletedAt,
                       assignedIp := if u.clearIp then None else vm.assignedIp,
                       image := if image.Some? then image.value else vm.image);
        Some(db.(vms := db.vms[u.vm := vm'],
                 allocations := if u.releaseIp then Release(db.allocations, u.vm, now) else db.allocations))
  }

  /** `apply_retry_created_in_tx` */
  function ApplyRetryCreated(db: Db, t: TaskId): Option<Db>
    requires t in db.tasks
  {
    var task := db.tasks[t];
    match RetryVmUpdate(task.kind)
    case None => Some(db)
    case Some(u) =>
      if !VmOnNode(db, u.vm, task.node) || db.vms[u.vm].status == Deleted then None
      else
        var vm := db.vms[u.vm];
        var vm' := vm.(status := if u.status.Some? then u.status.value else vm.status,
                       lastTask := Some(t),
                       assignedIp := if u.ip.Some? then u.ip else vm.assignedIp);
        Some(db.(vms := db.vms[u.vm := vm']))
  }

  /** `record_action_task_created_in_tx` */
  function RecordActionCreated(db: Db, t: TaskId): Option<Db>
    requires t in db.tasks
  {
    var task := db.tasks[t];
    match VmOf(task.kind)
    case None => Some(db)
    case Some(v) =>
      if !VmOnNode(db, v, task.node) || db.vms[v].status == Deleted then None
      else Some(db.(vms := db.vms[v := db.vms[v].(lastTask := Some(t))]))
  }

  /** `tasks::create_in_tx` */
  function CreateTask(db: Db, t: TaskId, node: NodeId, kind: TaskKind, now: int): Option<Db> {
    if node !in db.nodes || !AcceptsTask(db.nodes[node], kind, now) then None
    else Some(db.(tasks := db.tasks[t := Task(node, kind, Pending, now)]))
  }

  ghost function Weights(vms: map<VmId, Vm>, node: NodeId, d: Dimension): map<VmId, nat> {
    map v | v in vms :: if vms[v].node == node && Counted(vms[v].status) then SizeOf(vms[v], d) else 0
  }

  function SizeOf(vm: Vm, d: Dimension): nat {
    match d
    case Cpu => vm.cpu
    case Memory => vm.memoryMb
    case Disk => vm.diskGb
  }

  ghost function CommittedIn(vms: map<VmId, Vm>, node: NodeId, d: Dimension): nat {
    Sum(Weights(vms, node, d))
  }

  ghost function Committed(db: Db, node: NodeId): Capacity {
    Capacity(CommittedIn(db.vms, node, Cpu), CommittedIn(db.vms, node, Memory), CommittedIn(db.vms, node, Disk))
  }

  /** `ensure_capacity_for_create_vm_in_tx` */
  ghost predicate HasCapacity(db: Db, r: CreateVmRequest) {
    r.nodeId in db.nodes && CapacityAdmits(r, db.nodes[r.nodeId], Committed(db, r.nodeId))
  }

  // ----- The handlers -----

  /** The enabled plan a request names, as the transaction finds it. */
  datatype PlanLookup = PlanMissing | PlanDisabled | PlanSpec(cpu: nat, memoryMb: nat, diskGb: nat)

  /** The caller's request with the VM id filled in, caller-chosen addresses cleared and the plan applied. */
  function NormalizedRequest(r: CreateVmRequest, newVm: VmId, plan: PlanLookup): Option<CreateVmRequest> {
    var r1 := r.(vmId := Some(if r.vmId.Some? then r.vmId.value else newVm),
                 assignedIp := None, assignedPrefix := None, assignedGateway := None);
    if r1.planId.None? then Some(r1)
    else match plan
      case PlanSpec(cpu, memoryMb, diskGb) => Some(r1.(cpu := cpu, memoryMb := memoryMb, diskGb := diskGb))
      case _ => None
  }

  function WithReservation(r: CreateVmRequest, reserved: ReservedIp): CreateVmRequest {
    r.(assignedIp := Some(reserved.address), assignedPrefix := Some(reserved.prefix),
       assignedGateway := Some(reserved.gateway))
  }

  /** Reservation for a create or a retried create: the request, and the allocation row it inserts. */
  function ReserveFor(db: Db, r: CreateVmRequest, a: AllocationId, t: TaskId): Option<(CreateVmRequest, Allocations)> {
    if r.poolId.None? || r.vmId.None? then Some((r, db.allocations))
    else match Reserve(db.pools, db.allocations, r.poolId.value, r.vmId.value)
      case None => None
      case Some(reserved) =>
        var r1 := WithReservation(r, reserved);
        if !ValidForMvp(r1) then None
        else Some((r1, Insert(db.allocations, a, r.poolId.value, r.vmId.value, reserved.address, t)))
  }

  function NewVmRow(r: CreateVmRequest, t: TaskId): Vm {
    Vm(r.nodeId, r.poolId, r.assignedIp, r.image, r.cpu, r.memoryMb, r.diskGb, Provisioning, Some(t), None)
  }

  /** `create_vm_task` */
  ghost function CreateVmTask(db: Db, now: int, t: TaskId, a: AllocationId, newVm: VmId,
                              request: CreateVmRequest, plan: PlanLookup, imageEnabled: bool): Option<Db>
  {
    match NormalizedRequest(request, newVm, plan)
    case None => None
    case Some(r) =>
      if !ValidForMvp(r) || !imageEnabled || !HasCapacity(db, r) then None
      else match ReserveFor(db, r, a, t)
        case None => None
        case Some((r1, allocations)) =>
          match CreateTask(db.(allocations := allocations), t, r1.nodeId, CreateVm(r1), now)
          case None => None
          case Some(db1) =>
            if r1.vmId.value in db.vms then None
            else Some(db1.(vms := db1.vms[r1.vmId.value := NewVmRow(r1, t)], clock := now))
  }

  /** `create_vm_action_task`, and `reinstall_vm_task` with its own order of the same parts. */
  function ActionTask(db: Db, now: int, t: TaskId, node: NodeId, vm: VmId, action: VmAction,
                      image: Option<string>, imageEnabled: bool): Option<Db>
  {
    if !VmOnNode(db, vm, node) || !ActionAllowed(action, LifecycleOf(db, vm)) then None
    else
      var row := db.vms[vm];
      var kind := ActionKind(action, vm, if image.Some? then image.value else row.image, row.diskGb);
      if action == Reinstall && !imageEnabled then None
      else match CreateTask(db, t, node, kind, now)
        case None => None
        case Some(db1) =>
          match (if action == Reinstall then Some(db1) else RecordActionCreated(db1, t))
          case None => None
          case Some(db2) =>
            match ApplyTaskStatus(db2, t, now)
            case None => None
            case Some(db3) => Some(db3.(clock := now))
  }

  /** `cancel_task` */
  function CancelTask(db: Db, now: int, t: TaskId): Option<Db> {
    if t !in db.tasks || !AdminMayCancel(db.tasks[t].status) then None
    else match ApplyTaskStatus(db.(tasks := db.tasks[t := db.tasks[t].(status := Canceled)]), t, now)
      case None => None
      case Some(db1) => Some(db1.(clock := now))
  }

  /** `agent_update_task_status`; `messageOk` is the verdict on the error message of a failure. */
  function ReportStatus(db: Db, now: int, t: TaskId, node: NodeId, status: TaskStatus, messageOk: bool): Option<Db> {
    if !AgentMayReport(status) || t !in db.tasks || db.tasks[t].node != node
       || !ValidAgentTransition(db.tasks[t].status, status) || (status == Failed && !messageOk)
    then None
    else match ApplyTaskStatus(db.(tasks := db.tasks[t := db.tasks[t].(status := status)]), t, now)
      case None => None
      case Some(db1) => Some(db1.(clock := now))
  }

  /** Whether `t` is what the claim query selects for the node: its oldest pending task. */
  predicate IsNextForNode(db: Db, node: NodeId, t: TaskId) {
    && t in db.tasks && db.tasks[t].node == node && db.tasks[t].status == Pending
    && forall u | u in db.tasks && db.tasks[u].node == node && db.tasks[u].status == Pending ::
         db.tasks[t].createdAt <= db.tasks[u].createdAt
  }

  /** `agent_poll_task`: the claimed task, if any, and the new database. */
  ghost function PollTask(db: Db, now: int, node: NodeId): (Db, Option<TaskId>) {
    if node in db.nodes && db.nodes[node].schedulingEnabled && exists t :: IsNextForNode(db, node, t) then
      var t :| IsNextForNode(db, node, t);
      (db.(tasks := db.tasks[t := db.tasks[t].(status := Assigned)], clock := now), Some(t))
    else (db.(clock := now), None)
  }

  /** `retry_task` */
  ghost function RetryTask(db: Db, now: int, t: TaskId, a: AllocationId, source: TaskId,
                           imageEnabled: bool): Option<Db> {
    if source !in db.tasks || db.tasks[source].status !in {Failed, Canceled} then None
    else
      var node, kind := db.tasks[source].node, db.tasks[source].kind;
      if (kind.CreateVm? || kind.ReinstallVm?) && !imageEnabled then None
      else if VmOf(kind).None? || !VmOnNode(db, VmOf(kind).value, node)
              || !RetryAllowed(kind, LifecycleOf(db, VmOf(kind).value)) then None
      else if kind.CreateVm? && !HasCapacity(db, kind.request) then None
      else match (if kind.CreateVm? then ReserveFor(db, kind.request, a, t) else Some((NoRequest(), db.allocations)))
        case None => None
        case Some((r, allocations)) =>
          match CreateTask(db.(allocations := allocations), t, node, if kind.CreateVm? then CreateVm(r) else kind, now)
          case None => None
          case Some(db1) =>
            match ApplyRetryCreated(db1, t)
            case None => None
            case Some(db2) => Some(db2.(clock := now))
  }

  function NoRequest(): CreateVmRequest {
    CreateVmRequest(0, None, None, None, None, None, None, false, "", 0, 0, 0)
  }

  /** `create_ip_pool`; `nameOk`: the pool name is well formed and not taken. */
  function CreatePool(db: Db, now: int, pool: PoolId, cidr: string, gateway: string, nameOk: bool): Option<Db> {
    if pool in db.pools || !nameOk then None
    else match NewPool(cidr, gateway)
      case None => None
      case Some(p) => Some(db.(pools := db.pools[pool := p], clock := now))
  }

  /** Node creation, registration, heartbeat and scheduling write one node row; here it may become anything. */
  function WriteNode(db: Db, now: int, node: NodeId, row: NodeRow): Db {
    db.(nodes := db.nodes[node := row], clock := now)
  }

  // ----- Runs -----

  datatype Step =
    | CreateVmStep(now: int, task: TaskId, allocation: AllocationId, newVm: VmId,
                   request: CreateVmRequest, plan: PlanLookup, imageEnabled: bool)
    | ActionStep(now: int, task: TaskId, node: NodeId, vm: VmId, action: VmAction,
                 image: Option<string>, imageEnabled: bool)
    | RetryStep(now: int, task: TaskId, allocation: AllocationId, source: TaskId, imageEnabled: bool)
    | CancelStep(now: int, target: TaskId)
    | PollStep(now: int, node: NodeId)
    | ReportStep(now: int, target: TaskId, node: NodeId, status: TaskStatus, messageOk: bool)
    | PoolStep(now: int, pool: PoolId, cidr: string, gateway: string, nameOk: bool)
    | NodeStep(now: int, node: NodeId, row: NodeRow)

  /** What one request commits; `None` when it is refused. */
  ghost function Commits(db: Db, s: Step): Option<Db> {
    match s
    case CreateVmStep(now, t, a, v, r, plan, image) => CreateVmTask(db, now, t, a, v, r, plan, image)
    case ActionStep(now, t, node, vm, action, image, enabled) =>
      ActionTask(db, now, t, node, vm, action, image, enabled)
    case RetryStep(now, t, a, source, image) => RetryTask(db, now, t, a, source, image)
    case CancelStep(now, t) => CancelTask(db, now, t)
    case PollStep(now, node) => Some(PollTask(db, now, node).0)
    case ReportStep(now, t, node, status, ok) => ReportStatus(db, now, t, node, status, ok)
    case PoolStep(now, pool, cidr, gateway, nameOk) => CreatePool(db, now, pool, cidr, gateway, nameOk)
    case NodeStep(now, node, row) => Some(WriteNode(db, now, node, row))
  }

  ghost function After(db: Db, s: Step): Db {
    var r := Commits(db, s);
    if r.Some? then r.value else db
  }

  /** The assumptions on the environment: one rising clock, and generated ids that are new. */
  predicate Fair(db: Db, s: Step) {
    && s.now > db.clock
    && (s.CreateVmStep? || s.ActionStep? || s.RetryStep? ==> s.task !in db.tasks)
    && (s.CreateVmStep? || s.RetryStep? ==> s.allocation !in db.allocations)
  }

  ghost predicate FairRun(db: Db, run: seq<Step>)
    decreases |run|
  {
    run != [] ==> Fair(db, run[0]) && FairRun(After(db, run[0]), run[1..])
  }

  ghost function AfterRun(db: Db, run: seq<Step>): Db
    decreases |run|
  {
    if run == [] then db else AfterRun(After(db, run[0]), run[1..])
  }

  function Empty(): Db {
    Db(map[], map[], map[], map[], map[], 0)
  }
}
