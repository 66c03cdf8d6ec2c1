/**
 What each request needs and what it leaves behind, in terms of the tables alone: none of the functions that
 compute an acceptance or an outcome appears in these statements.
 */
module Requests {
  import opened Wrappers
  import opened Ipv4
  import opened Tasks
  import opened Vms
  import opened Ipam
  import opened Nodes
  import opened Sums
  import opened Database
  import opened Invariants
  import opened Guarantees
  import Cidr

  // ----- Admission -----

  /** A node takes a task: it is registered and scheduled; for a new VM it is also online, known, fresh and able. */
  predicate Takes(n: NodeRow, newVm: bool, now: int) {
    && n.registered && n.schedulingEnabled
    && (newVm ==>
          && n.online && n.libvirt in {NotChecked, Available}
          && n.agentVersion.Some? && |n.agentVersion.value| > 0
          && n.lastSeenAt.Some? && now <= n.lastSeenAt.value + 7200)
  }

  /** The VM counts against its node: it is neither in error nor deleted. */
  predicate Stands(vm: Vm, node: NodeId) { vm.node == node && vm.status != Error && vm.status != Deleted }

  ghost function Taken(db: Db, node: NodeId, d: Dimension): nat {
    Sum<VmId>(map v | v in db.vms ::
                if !Stands(db.vms[v], node) then 0
                else match d
                  case Cpu => db.vms[v].cpu
                  case Memory => db.vms[v].memoryMb
                  case Disk => db.vms[v].diskGb)
  }

  /** There is room in a total; zero means unknown, and sums of 64 bits saturate. */
  predicate Room(taken: nat, asked: nat, total: nat) {
    total == 0 || taken + asked <= total || total >= 0xFFFF_FFFF_FFFF_FFFF
  }

  /** A node has room for a VM; nodes report memory and disk in bytes. */
  ghost predicate HasRoom(db: Db, node: NodeId, cpu: nat, memoryMb: nat, diskGb: nat) {
    && node in db.nodes
    && Room(Taken(db, node, Cpu), cpu, db.nodes[node].cpuTotal)
    && Room(Taken(db, node, Memory), memoryMb, db.nodes[node].memoryTotal / 0x10_0000)
    && Room(Taken(db, node, Disk), diskGb, db.nodes[node].diskTotal / 0x4000_0000)
  }

  lemma Megabytes(bytes: nat)
    ensures bytes / 1024 / 1024 == bytes / 0x10_0000 && bytes / 1024 / 1024 / 1024 == bytes / 0x4000_0000
  {
  }

  lemma TakenIsCommitted(db: Db, node: NodeId, d: Dimension)
    ensures Taken(db, node, d) == CommittedIn(db.vms, node, d)
  {
    hide Sum;
    assert (map v | v in db.vms ::
              if !Stands(db.vms[v], node) then 0
              else match d
                case Cpu => db.vms[v].cpu
                case Memory => db.vms[v].memoryMb
                case Disk => db.vms[v].diskGb) == Weights(db.vms, node, d);
  }

  lemma HasRoomIff(db: Db, r: CreateVmRequest)
    ensures HasCapacity(db, r) <==> HasRoom(db, r.nodeId, r.cpu, r.memoryMb, r.diskGb)
  {
    hide CommittedIn, Taken;
    TakenIsCommitted(db, r.nodeId, Cpu);
    TakenIsCommitted(db, r.nodeId, Memory);
    TakenIsCommitted(db, r.nodeId, Disk);
    if r.nodeId in db.nodes {
      Megabytes(db.nodes[r.nodeId].memoryTotal);
      Megabytes(db.nodes[r.nodeId].diskTotal);
    }
  }

  predicate SizesInRange(cpu: nat, memoryMb: nat, diskGb: nat) {
    1 <= cpu <= 32 && 128 <= memoryMb <= 262144 && 1 <= diskGb <= 4096
  }

  // ----- Create -----

  /** The sizes a create asks for: those of its plan if it names one, else its own. */
  function CpuAsked(r: CreateVmRequest, plan: PlanLookup): nat {
    if r.planId.Some? && plan.PlanSpec? then plan.cpu else r.cpu
  }

  function MemoryAsked(r: CreateVmRequest, plan: PlanLookup): nat {
    if r.planId.Some? && plan.PlanSpec? then plan.memoryMb else r.memoryMb
  }

  function DiskAsked(r: CreateVmRequest, plan: PlanLookup): nat {
    if r.planId.Some? && plan.PlanSpec? then plan.diskGb else r.diskGb
  }

  /** The VM a create is about: the one it names, else a new id. */
  function VmAsked(r: CreateVmRequest, newVm: VmId): VmId {
    if r.vmId.Some? then r.vmId.value else newVm
  }

  /**
   A create is accepted exactly when a plan it names exists and is enabled, its texts and sizes are valid, its image
   is enabled, its VM id is new, its node takes new VMs and has room for those sizes, and its pool has a free host.
   */
  lemma CreateNeeds(db: Db, now: int, t: TaskId, a: AllocationId, newVm: VmId, request: CreateVmRequest,
                    plan: PlanLookup, enabled: bool)
    requires Inv(db) && t !in db.tasks && a !in db.allocations
    ensures CreateVmTask(db, now, t, a, newVm, request, plan, enabled).Some? <==>
            && (request.planId.Some? ==> plan.PlanSpec?)
            && request.textsValid && enabled && VmAsked(request, newVm) !in db.vms
            && SizesInRange(CpuAsked(request, plan), MemoryAsked(request, plan), DiskAsked(request, plan))
            && HasRoom(db, request.nodeId, CpuAsked(request, plan), MemoryAsked(request, plan),
                       DiskAsked(request, plan))
            && Takes(db.nodes[request.nodeId], true, now) && PoolHasRoom(db, request.poolId)
  {
    CreateAcceptedIff(db, now, t, a, newVm, request, plan, enabled);
    var r := NormalizedRequest(request, newVm, plan);
    NormalizedIs(request, newVm, plan);
    hide Inv, CreateVmTask, HasCapacity, HasRoom, PoolHasRoom, NormalizedRequest, CpuAsked, MemoryAsked, DiskAsked,
      VmAsked;
    if r.Some? {
      HasRoomIff(db, r.value);
      RoomNeedsNode(db, r.value);
      if r.value.nodeId in db.nodes {
        TakesIff(db.nodes[r.value.nodeId], CreateVm(r.value), now);
      }
    }
    hide AcceptsTask, Takes;
  }

  lemma NormalizedIs(request: CreateVmRequest, newVm: VmId, plan: PlanLookup)
    ensures var r := NormalizedRequest(request, newVm, plan);
            && (r.Some? <==> (request.planId.Some? ==> plan.PlanSpec?))
            && (r.Some? ==>
                  && r.value.cpu == CpuAsked(request, plan) && r.value.memoryMb == MemoryAsked(request, plan)
                  && r.value.diskGb == DiskAsked(request, plan) && r.value.vmId == Some(VmAsked(request, newVm))
                  && r.value.nodeId == request.nodeId && r.value.poolId == request.poolId
                  && r.value.textsValid == request.textsValid)
  {
  }

  lemma TakesIff(n: NodeRow, kind: TaskKind, now: int)
    ensures AcceptsTask(n, kind, now) <==> Takes(n, kind.CreateVm?, now)
  {
  }

  lemma RoomNeedsNode(db: Db, r: CreateVmRequest)
    ensures HasRoom(db, r.nodeId, r.cpu, r.memoryMb, r.diskGb) ==> r.nodeId in db.nodes
  {
  }

  /** The only table rows a new task touches are its own, its VM's and perhaps a new allocation. */
  ghost predicate TouchesOnly(db: Db, db': Db, now: int, t: TaskId, v: VmId) {
    && t in db'.tasks && v in db'.vms
    && db'.tasks == db.tasks[t := db'.tasks[t]] && db'.vms == db.vms[v := db'.vms[v]]
    && db'.nodes == db.nodes && db'.pools == db.pools && db'.clock == now
  }

  /**
   The row and the task of an accepted create: the sizes asked for, the node, pool and image of the request, and the
   address the pool gives, if there is a pool; addresses the caller sent play no part.
   */
  lemma CreateMakes(db: Db, now: int, t: TaskId, a: AllocationId, newVm: VmId, request: CreateVmRequest,
                    plan: PlanLookup, enabled: bool)
    requires CreateVmTask(db, now, t, a, newVm, request, plan, enabled).Some?
    ensures var db' := CreateVmTask(db, now, t, a, newVm, request, plan, enabled).value;
            var v := VmAsked(request, newVm);
            && TouchesOnly(db, db', now, t, v) && db'.tasks[t].kind.CreateVm?
            && var (vm, task) := (db'.vms[v], db'.tasks[t]);
               var r := task.kind.request;
               && vm.cpu == r.cpu == CpuAsked(request, plan)
               && vm.memoryMb == r.memoryMb == MemoryAsked(request, plan)
               && vm.diskGb == r.diskGb == DiskAsked(request, plan)
               && vm.node == r.nodeId == task.node == request.nodeId
               && vm.pool == r.poolId == request.poolId && vm.image == r.image == request.image
               && vm.status == Provisioning && vm.lastTask == Some(t) && vm.deletedAt == None
               && task.status == Pending && task.createdAt == now && r.vmId == Some(v)
               && vm.assignedIp == r.assignedIp
               && if request.poolId.None?
                  then r.assignedIp == None && r.assignedPrefix == None && r.assignedGateway == None
                       && db'.allocations == db.allocations
                  else GivesAddress(db, db'.allocations, request.poolId.value, v, a, t, r)
  {
    hide HasCapacity, Reserve, ValidForMvp, AcceptsTask;
  }

  /** The pool gives its lowest free address, with its prefix and gateway, and remembers it. */
  ghost predicate GivesAddress(db: Db, allocations: Allocations, pool: PoolId, v: VmId, a: AllocationId, t: TaskId,
                               r: CreateVmRequest) {
    && Reserve(db.pools, db.allocations, pool, v).Some?
    && var reserved := Reserve(db.pools, db.allocations, pool, v).value;
       && r.assignedIp == Some(reserved.address) && r.assignedPrefix == Some(reserved.prefix)
       && r.assignedGateway == Some(reserved.gateway)
       && allocations == db.allocations[a := Allocation(pool, v, reserved.address, Some(t), None)]
  }

  // ----- Actions -----

  /** The task of an accepted action, and the status it puts its VM in; nothing else of the VM changes. */
  lemma ActionMakes(db: Db, now: int, t: TaskId, node: NodeId, v: VmId, action: VmAction, image: Option<string>,
                    enabled: bool)
    requires Inv(db) && ActionTask(db, now, t, node, v, action, image, enabled).Some?
    ensures var db' := ActionTask(db, now, t, node, v, action, image, enabled).value;
            && v in db.vms && TouchesOnly(db, db', now, t, v) && db'.allocations == db.allocations
            && var vm := db.vms[v];
               && db'.tasks[t].node == node && db'.tasks[t].status == Pending && db'.tasks[t].createdAt == now
               && db'.tasks[t].kind == (match action
                                        case Start => StartVm(v)
                                        case Stop => StopVm(v)
                                        case Reboot => RebootVm(v)
                                        case Reinstall =>
                                          ReinstallVm(v, if image.Some? then image.value else vm.image, vm.diskGb)
                                        case Delete => DeleteVm(v))
               && db'.vms[v] == vm.(lastTask := Some(t),
                                    status := if action == Reinstall then Provisioning
                                              else if action == Delete then Deleting else vm.status)
  {
    hide Inv, AcceptsTask, ActionAllowed, Release;
  }

  // ----- Retries -----

  /**
   A retry is accepted exactly when its source failed or was canceled, an image it needs is enabled, every task of
   the VM is over, the VM is where such a task may start, and its node takes it; a create also needs room, a VM
   without an address and a free host.
   */
  lemma RetryNeeds(db: Db, now: int, t: TaskId, a: AllocationId, source: TaskId, enabled: bool)
    requires Inv(db) && t !in db.tasks && a !in db.allocations
    ensures RetryTask(db, now, t, a, source, enabled).Some? <==>
            && source in db.tasks && (db.tasks[source].status == Failed || db.tasks[source].status == Canceled)
            && var (kind, node) := (db.tasks[source].kind, db.tasks[source].node);
               && (kind.CreateVm? || kind.ReinstallVm? ==> enabled)
               && VmOf(kind).Some? && VmOf(kind).value in db.vms && AllOver(db, VmOf(kind).value)
               && var vm := db.vms[VmOf(kind).value];
                  && (vm.status == Up || vm.status == Stopped || vm.status == Error)
                  && (kind.CreateVm? ==> vm.status == Error)
                  && (kind.StopVm? || kind.RebootVm? ==> vm.status == Up)
                  && (kind.StartVm? ==> vm.status != Up)
                  && node in db.nodes && Takes(db.nodes[node], kind.CreateVm?, now)
                  && (kind.CreateVm? ==>
                        && HasRoom(db, kind.request.nodeId, vm.cpu, vm.memoryMb, vm.diskGb)
                        && PoolHasRoom(db, kind.request.poolId) && vm.assignedIp.None?)
  {
    RetryAcceptedIff(db, now, t, a, source, enabled);
    hide RetryTask, HasRoom, PoolHasRoom, HasCapacity, Inv, AllOver, AcceptsTask, Takes;
    if source in db.tasks {
      TaskFacts(db, source);
      if db.tasks[source].node in db.nodes {
        TakesIff(db.nodes[db.tasks[source].node], db.tasks[source].kind, now);
      }
      var kind, v := db.tasks[source].kind, VmOf(db.tasks[source].kind).value;
      AllOverIff(db, v);
      if kind.CreateVm? {
        HasRoomIff(db, kind.request);
      }
    }
  }

  /** The row and the task a retry leaves. */
  ghost predicate RetriedAs(db: Db, db': Db, now: int, t: TaskId, a: AllocationId, source: TaskId, v: VmId)
    requires source in db.tasks && v in db.vms
  {
    var kind := db.tasks[source].kind;
    && TouchesOnly(db, db', now, t, v)
    && db'.tasks[t].node == db.tasks[source].node
    && db'.tasks[t].status == Pending && db'.tasks[t].createdAt == now
    && var (vm, vm', kind') := (db.vms[v], db'.vms[v], db'.tasks[t].kind);
       && (if kind.CreateVm? && kind.request.poolId.Some?
           then
             && kind'.CreateVm?
             && kind'.request == kind.request.(assignedIp := kind'.request.assignedIp,
                                               assignedPrefix := kind'.request.assignedPrefix,
                                               assignedGateway := kind'.request.assignedGateway)
             && GivesAddress(db, db'.allocations, kind.request.poolId.value, v, a, t, kind'.request)
           else kind' == kind && db'.allocations == db.allocations)
       && vm' == vm.(lastTask := Some(t),
                     status := if kind.CreateVm? || kind.ReinstallVm? then Provisioning
                               else if kind.DeleteVm? then Deleting else vm.status,
                     assignedIp := if kind.CreateVm? && kind.request.poolId.Some?
                                   then kind'.request.assignedIp else vm.assignedIp)
  }

  lemma RetriedOther(db: Db, now: int, t: TaskId, a: AllocationId, source: TaskId, enabled: bool)
    requires RetryTask(db, now, t, a, source, enabled).Some? && !db.tasks[source].kind.CreateVm?
    ensures VmOf(db.tasks[source].kind).Some? && VmOf(db.tasks[source].kind).value in db.vms
    ensures RetriedAs(db, RetryTask(db, now, t, a, source, enabled).value, now, t, a, source,
                      VmOf(db.tasks[source].kind).value)
  {
    hide HasCapacity, ReserveFor, AcceptsTask, RetryAllowed, GivesAddress;
    var v, db' := VmOf(db.tasks[source].kind).value, RetryTask(db, now, t, a, source, enabled).value;
    assert db'.vms == db.vms[v := db'.vms[v]];
  }

  lemma ReservedFor(db: Db, r: CreateVmRequest, a: AllocationId, t: TaskId)
    requires r.vmId.Some? && ReserveFor(db, r, a, t).Some?
    ensures var (r1, allocations) := ReserveFor(db, r, a, t).value;
            if r.poolId.None? then r1 == r && allocations == db.allocations
            else
              && r1 == r.(assignedIp := r1.assignedIp, assignedPrefix := r1.assignedPrefix,
                          assignedGateway := r1.assignedGateway)
              && r1.assignedIp.Some?
              && GivesAddress(db, allocations, r.poolId.value, r.vmId.value, a, t, r1)
  {
    hide Reserve, ValidForMvp;
  }

  lemma RetriedCreate(db: Db, now: int, t: TaskId, a: AllocationId, source: TaskId, enabled: bool)
    requires RetryTask(db, now, t, a, source, enabled).Some? && db.tasks[source].kind.CreateVm?
    requires db.tasks[source].kind.request.poolId.None? ==> db.tasks[source].kind.request.assignedIp.None?
    ensures VmOf(db.tasks[source].kind).Some? && VmOf(db.tasks[source].kind).value in db.vms
    ensures RetriedAs(db, RetryTask(db, now, t, a, source, enabled).value, now, t, a, source,
                      VmOf(db.tasks[source].kind).value)
  {
    hide HasCapacity, AcceptsTask, RetryAllowed, GivesAddress, LifecycleOf;
    ReservedFor(db, db.tasks[source].kind.request, a, t);
    hide ReserveFor;
    var v, db' := VmOf(db.tasks[source].kind).value, RetryTask(db, now, t, a, source, enabled).value;
    assert db'.vms == db.vms[v := db'.vms[v]];
  }

  /** A retry queues the same work on the same node; a create gets a new address of its pool. */
  lemma RetryMakes(db: Db, now: int, t: TaskId, a: AllocationId, source: TaskId, enabled: bool)
    requires Inv(db) && RetryTask(db, now, t, a, source, enabled).Some?
    ensures source in db.tasks && VmOf(db.tasks[source].kind).Some? && VmOf(db.tasks[source].kind).value in db.vms
    ensures RetriedAs(db, RetryTask(db, now, t, a, source, enabled).value, now, t, a, source,
                      VmOf(db.tasks[source].kind).value)
  {
    TaskFacts(db, source);
    hide Inv, RetryTask, RetriedAs;
    if db.tasks[source].kind.CreateVm? {
      RetriedCreate(db, now, t, a, source, enabled);
    } else {
      RetriedOther(db, now, t, a, source, enabled);
    }
  }

  // ----- Reports and cancellations -----

  /** The status a task leaves its VM in when it comes to a status itself. */
  function Leaves(kind: TaskKind, status: TaskStatus, before: VmStatus): VmStatus {
    if status == Succeeded then
      match kind
      case StopVm(_) => Stopped
      case DeleteVm(_) => Deleted
      case _ => Up
    else if status != Running && (kind.CreateVm? || kind.ReinstallVm? || kind.DeleteVm?) then Error
    else before
  }

  /** A task that gives the address of its VM back: a create that failed or was canceled, a succeeded delete. */
  predicate GivesBack(kind: TaskKind, status: TaskStatus) {
    (kind.CreateVm? && (status == Failed || status == Canceled)) || (kind.DeleteVm? && status == Succeeded)
  }

  /**
   What settling a task does: the task has its status; the VM the one the task leaves it in; a succeeded reinstall
   brings its image and a succeeded delete the time; a create that failed or was canceled, and a succeeded delete,
   give the address back. Everything else stays.
   */
  ghost predicate SettlesAs(db: Db, db': Db, now: int, t: TaskId, status: TaskStatus)
    requires t in db.tasks
  {
    var kind := db.tasks[t].kind;
    && VmOf(kind).Some?
    && var v := VmOf(kind).value;
       && v in db.vms && TouchesOnly(db, db', now, t, v) && db'.tasks[t] == db.tasks[t].(status := status)
       && var givesBack := GivesBack(kind, status);
          && db'.vms[v] == db.vms[v].(
               status := Leaves(kind, status, db.vms[v].status),
               image := if kind.ReinstallVm? && status == Succeeded then kind.image else db.vms[v].image,
               deletedAt := if kind.DeleteVm? && status == Succeeded then Some(now) else db.vms[v].deletedAt,
               assignedIp := if givesBack then None else db.vms[v].assignedIp)
          && if givesBack then FreedFor(db.allocations, db'.allocations, v, now) else db'.allocations == db.allocations
  }

  /** The active allocations of a VM are released now, all others stay. */
  ghost predicate FreedFor(before: Allocations, after: Allocations, v: VmId, now: int) {
    && after.Keys == before.Keys
    && forall a | a in before ::
         after[a] == if before[a].vm == v && before[a].releasedAt == None then before[a].(releasedAt := Some(now))
                     else before[a]
  }

  /** The outcome of a task in terms of its VM update. */
  lemma OutcomeIs(kind: TaskKind, before: TaskStatus, status: TaskStatus, vm: VmStatus)
    requires VmOf(kind).Some? && Mirrors(kind, before, vm) && StatusChange(before, status)
    ensures var u := NextVmStatus(kind, status);
            if u.None? then Leaves(kind, status, vm) == vm && !GivesBack(kind, status) && !kind.DeleteVm?
                            && (status == Succeeded ==> !kind.ReinstallVm?)
            else u.value == VmUpdate(VmOf(kind).value, Leaves(kind, status, vm), kind.DeleteVm? && status == Succeeded,
                                     GivesBack(kind, status), GivesBack(kind, status))
    ensures NextImage(kind, status) == if kind.ReinstallVm? && status == Succeeded then Some(kind.image) else None
  {
  }

  lemma ReleaseFrees(allocations: Allocations, v: VmId, now: int)
    ensures FreedFor(allocations, Release(allocations, v, now), v, now)
  {
  }

  /** The row a settled task leaves, once its VM update is known. */
  lemma SettledRow(db: Db, t: TaskId, v: VmId, status: TaskStatus, now: int)
    requires t in db.tasks && VmOf(db.tasks[t].kind) == Some(v) && VmOnNode(db, v, db.tasks[t].node)
    requires db.vms[v].lastTask == Some(t)
    requires var (kind, u) := (db.tasks[t].kind, NextVmStatus(db.tasks[t].kind, status));
             if u.None? then Leaves(kind, status, db.vms[v].status) == db.vms[v].status && !GivesBack(kind, status)
                             && !kind.DeleteVm? && (status == Succeeded ==> !kind.ReinstallVm?)
             else u.value == VmUpdate(v, Leaves(kind, status, db.vms[v].status), kind.DeleteVm? && status == Succeeded,
                                      GivesBack(kind, status), GivesBack(kind, status))
    requires NextImage(db.tasks[t].kind, status)
          == if db.tasks[t].kind.ReinstallVm? && status == Succeeded then Some(db.tasks[t].kind.image) else None
    ensures Settled(db, t, status, now).Some?
    ensures SettlesAs(db, Settled(db, t, status, now).value.(clock := now), now, t, status)
  {
    ReleaseFrees(db.allocations, v, now);
    hide NextVmStatus, NextImage, Leaves, GivesBack, VmOf, Release, FreedFor;
    var db' := Settled(db, t, status, now).value;
    assert db'.vms == db.vms[v := db'.vms[v]];
  }

  lemma SettledAs(db: Db, t: TaskId, status: TaskStatus, now: int)
    requires Inv(db) && t in db.tasks && StatusChange(db.tasks[t].status, status)
    ensures Settled(db, t, status, now).Some?
    ensures SettlesAs(db, Settled(db, t, status, now).value.(clock := now), now, t, status)
  {
    TaskFacts(db, t);
    StatusChangeFromActive(db.tasks[t].status, status);
    hide Inv, SettlesAs, Settled;
    var v := VmOf(db.tasks[t].kind).value;
    OutcomeIs(db.tasks[t].kind, db.tasks[t].status, status, db.vms[v].status);
    hide Mirrors, NextVmStatus, NextImage, Leaves, GivesBack, StatusChange;
    SettledRow(db, t, v, status, now);
  }

  /** A status report that is accepted settles its task. */
  lemma ReportMakes(db: Db, now: int, t: TaskId, node: NodeId, status: TaskStatus, ok: bool)
    requires Inv(db) && ReportStatus(db, now, t, node, status, ok).Some?
    ensures t in db.tasks && SettlesAs(db, ReportStatus(db, now, t, node, status, ok).value, now, t, status)
  {
    hide Inv, SettlesAs, ApplyTaskStatus;
    SettledAs(db, t, status, now);
  }

  /** So does a cancellation by an administrator. */
  lemma CancelMakes(db: Db, now: int, t: TaskId)
    requires Inv(db) && CancelTask(db, now, t).Some?
    ensures t in db.tasks && SettlesAs(db, CancelTask(db, now, t).value, now, t, Canceled)
  {
    hide Inv, SettlesAs, ApplyTaskStatus;
    SettledAs(db, t, Canceled, now);
  }

  // ----- Polls -----

  /** A poll hands a task out exactly when its node is scheduled and has a pending task; it assigns the oldest. */
  lemma PollMakes(db: Db, now: int, node: NodeId)
    requires Inv(db)
    ensures var (db', picked) := PollTask(db, now, node);
            && (picked.Some? <==>
                  && node in db.nodes && db.nodes[node].schedulingEnabled
                  && exists t | t in db.tasks :: db.tasks[t].node == node && db.tasks[t].status == Pending)
            && (picked.None? ==> db' == db.(clock := now))
            && (picked.Some? ==>
                  var t := picked.value;
                  && t in db.tasks && db.tasks[t].node == node && db.tasks[t].status == Pending
                  && db' == db.(tasks := db.tasks[t := db.tasks[t].(status := Assigned)], clock := now)
                  && forall u | u in db.tasks && db.tasks[u].node == node && db.tasks[u].status == Pending && u != t ::
                       db.tasks[t].createdAt < db.tasks[u].createdAt)
  {
    hide Inv;
    InvParts(db);
    var pending := set u | u in db.tasks && db.tasks[u].node == node && db.tasks[u].status == Pending;
    if pending != {} {
      var t := Oldest(db, pending);
      assert IsNextForNode(db, node, t);
    } else {
      assert forall t | t in db.tasks :: db.tasks[t].node == node && db.tasks[t].status == Pending ==> t in pending;
    }
    if PollTask(db, now, node).1.Some? {
      assert IsNextForNode(db, node, PollTask(db, now, node).1.value);
    }
  }

  /** Of some tasks one is the oldest. */
  lemma {:induction false} Oldest(db: Db, some: set<TaskId>) returns (t: TaskId)
    requires some != {} && some <= db.tasks.Keys
    ensures t in some && forall u | u in some :: db.tasks[t].createdAt <= db.tasks[u].createdAt
    decreases |some|
  {
    var x :| x in some;
    t := x;
    if some != {x} {
      var u := Oldest(db, some - {x});
      assert forall w | w in some :: w == x || w in some - {x};
      if db.tasks[u].createdAt < db.tasks[x].createdAt {
        t := u;
      }
    }
  }

  // ----- Pools -----

  /**
   A pool is accepted exactly under a new acceptable name, with texts that denote a block and an address strictly
   between its first and its last; it is stored so that it denotes the same, and nothing else changes.
   */
  lemma PoolMakes(db: Db, now: int, pool: PoolId, cidr: string, gateway: string, nameOk: bool)
    ensures CreatePool(db, now, pool, cidr, gateway, nameOk).Some? <==>
            && nameOk && pool !in db.pools && Cidr.ParseCidr(cidr).Some? && Parse(gateway).Some?
            && Cidr.ParseCidr(cidr).value.network < Parse(gateway).value < Cidr.ParseCidr(cidr).value.broadcast
    ensures CreatePool(db, now, pool, cidr, gateway, nameOk).Some? ==>
              var db' := CreatePool(db, now, pool, cidr, gateway, nameOk).value;
              && pool in db'.pools && db' == db.(pools := db.pools[pool := db'.pools[pool]], clock := now)
              && Cidr.ParseCidr(db'.pools[pool].cidr) == Cidr.ParseCidr(cidr)
              && Parse(db'.pools[pool].gateway) == Parse(gateway)
  {
    hide Cidr.ParseCidr, Parse;
    if NewPool(cidr, gateway).Some? {
      NewPoolIsOk(cidr, gateway);
    }
  }

  // ----- A VM's specification over whole runs -----

  /** The image a request brings to a VM: that of a reinstall whose success it reports. */
  ghost function ImageBrought(db: Db, s: Step, v: VmId): Option<string> {
    if s.ReportStep? && Commits(db, s).Some? && s.status == Succeeded && s.target in db.tasks
       && db.tasks[s.target].kind.ReinstallVm? && db.tasks[s.target].kind.vm == v
    then Some(db.tasks[s.target].kind.image) else None
  }

  /** One request leaves the node, pool and sizes of a VM alone, and its image but for a succeeded reinstall. */
  lemma SpecStays(db: Db, s: Step, v: VmId)
    requires Inv(db) && Fair(db, s) && v in db.vms
    ensures v in After(db, s).vms
    ensures var (vm, vm') := (db.vms[v], After(db, s).vms[v]);
            && vm'.node == vm.node && vm'.pool == vm.pool
            && vm'.cpu == vm.cpu && vm'.memoryMb == vm.memoryMb && vm'.diskGb == vm.diskGb
            && vm'.image == if ImageBrought(db, s, v).Some? then ImageBrought(db, s, v).value else vm.image
  {
    hide Inv, CreateVmTask, ActionTask, RetryTask, CancelTask, ReportStatus, PollTask, CreatePool;
    if Commits(db, s).Some? {
      match s
      case CreateVmStep(now, t, a, newVm, r, plan, image) =>
        CreateNeeds(db, now, t, a, newVm, r, plan, image);
        CreateMakes(db, now, t, a, newVm, r, plan, image);
      case ActionStep(now, t, node, vm, action, image, enabled) =>
        ActionMakes(db, now, t, node, vm, action, image, enabled);
      case RetryStep(now, t, a, source, image) =>
        RetryMakes(db, now, t, a, source, image);
      case CancelStep(now, t) =>
        CancelMakes(db, now, t);
      case ReportStep(now, t, node, status, ok) =>
        ReportMakes(db, now, t, node, status, ok);
      case PollStep(now, node) =>
        PollMakes(db, now, node);
      case PoolStep(now, pool, cidr, gateway, nameOk) =>
        PoolStepEffect(db, now, pool, cidr, gateway, nameOk);
      case NodeStep(now, node, row) =>
    }
  }

  /** The image of the last succeeded reinstall of a run, else the one before it. */
  ghost function LastImage(db: Db, run: seq<Step>, v: VmId, image: string): string
    decreases |run|
  {
    if run == [] then image
    else
      var brought := ImageBrought(db, run[0], v);
      LastImage(After(db, run[0]), run[1..], v, if brought.Some? then brought.value else image)
  }

  /** Over whole runs a VM keeps node, pool and sizes, and has the image of its last succeeded reinstall. */
  lemma {:induction false} SpecOverRuns(db: Db, run: seq<Step>, v: VmId)
    requires Inv(db) && FairRun(db, run) && v in db.vms
    ensures v in AfterRun(db, run).vms
    ensures var (vm, vm') := (db.vms[v], AfterRun(db, run).vms[v]);
            && vm'.node == vm.node && vm'.pool == vm.pool
            && vm'.cpu == vm.cpu && vm'.memoryMb == vm.memoryMb && vm'.diskGb == vm.diskGb
            && vm'.image == LastImage(db, run, v, vm.image)
    decreases |run|
  {
    hide Inv, After, ImageBrought;
    if run != [] {
      SpecStays(db, run[0], v);
      StepInv(db, run[0]);
      SpecOverRuns(After(db, run[0]), run[1..], v);
    }
  }
}
