/**
 The request handlers as the master runs them: table by table, update by update, each update checking
 how many rows it touched, and the whole undone when a step fails. Every handler is proved to do
 exactly what the function of the same name in `Database` says.
 */
module Handlers {
  import opened Wrappers
  import opened Ipv4
  import opened Tasks
  import opened Vms
  import opened Ipam
  import opened Nodes
  import opened Sums
  import Cidr
  import D = Database
  import I = Invariants

  class Master {
    var nodes: map<NodeId, NodeRow>
    var pools: map<PoolId, Pool>
    var tasks: map<TaskId, D.Task>
    var vms: map<VmId, D.Vm>
    var allocations: Allocations
    ghost var clock: int

    ghost function Db(): D.Db
      reads this
    {
      D.Db(nodes, pools, tasks, vms, allocations, clock)
    }

    constructor ()
      ensures Db() == D.Empty() && I.Inv(Db())
    {
      nodes, pools, tasks, vms, allocations := map[], map[], map[], map[], map[];
      clock := 0;
      new;
      I.EmptyInv();
    }

    // ----- Allocation table -----

    /** `INSERT ... ON CONFLICT DO NOTHING` under the two partial unique indexes; the number of rows inserted. */
    method InsertAllocation(id: AllocationId, pool: PoolId, vm: VmId, ip: Ip) returns (rows: nat)
      requires id !in allocations
      modifies this`allocations
      ensures rows == if HasActive(old(allocations), vm) || ip in ActiveAddresses(old(allocations), pool) then 0 else 1
      ensures allocations == if rows == 0 then old(allocations)
                             else old(allocations)[id := Allocation(pool, vm, ip, None, None)]
    {
      if HasActive(allocations, vm) || ip in ActiveAddresses(allocations, pool) {
        return 0;
      }
      allocations := allocations[id := Allocation(pool, vm, ip, None, None)];
      return 1;
    }

    /** Tries the hosts of the pool in order until an insert goes through. */
    method ReserveNextForVm(pool: PoolId, vm: VmId, id: AllocationId) returns (r: Option<ReservedIp>)
      requires id !in allocations
      modifies this`allocations
      ensures r == Reserve(pools, old(allocations), pool, vm)
      ensures allocations == if r.None? then old(allocations)
                             else old(allocations)[id := Allocation(pool, vm, r.value.address, None, None)]
    {
      hide Cidr.ParseCidr, Parse, HasActive, ActiveAddresses;
      if pool !in pools || !PoolParses(pools[pool]) {
        return None;
      }
      var block, gateway := BlockOf(pools[pool]), GatewayOf(pools[pool]);
      var used := ActiveAddresses(allocations, pool);
      var candidate: nat := block.network + 1;
      while candidate < block.broadcast
        invariant allocations == old(allocations)
        invariant !HasActive(allocations, vm) ==>
                    LowestFree(block.network + 1, block.broadcast, gateway, used)
                    == LowestFree(candidate, block.broadcast, gateway, used)
        decreases block.broadcast - candidate
      {
        if candidate != gateway && candidate !in used {
          var rows := InsertAllocation(id, pool, vm, candidate);
          if rows == 1 {
            return Some(ReservedIp(candidate, block.prefix, gateway));
          }
        }
        candidate := candidate + 1;
      }
      return None;
    }

    /** Links the active rows of a VM to a task; the number of rows touched. */
    method AttachTask(vm: VmId, t: TaskId) returns (rows: nat)
      modifies this`allocations
      ensures rows == |ActiveFor(old(allocations), vm)|
      ensures allocations == Attach(old(allocations), vm, t)
    {
      var touched := set a | a in allocations && allocations[a].Active() && allocations[a].vm == vm;
      assert touched == ActiveFor(allocations, vm);
      rows := |touched|;
      allocations := map a | a in allocations ::
        if a in touched then allocations[a].(task := Some(t)) else allocations[a];
    }

    method ReleaseForVm(vm: VmId, now: int)
      modifies this`allocations
      ensures allocations == Release(old(allocations), vm, now)
    {
      allocations := map a | a in allocations ::
        if allocations[a].Active() && allocations[a].vm == vm
        then allocations[a].(releasedAt := Some(now)) else allocations[a];
    }

    // ----- Task and VM tables -----

    method InsertTask(t: TaskId, node: NodeId, kind: TaskKind, now: int) returns (ok: bool)
      modifies this`tasks
      ensures ok == D.CreateTask(old(Db()), t, node, kind, now).Some?
      ensures Db() == if ok then D.CreateTask(old(Db()), t, node, kind, now).value else old(Db())
    {
      if node !in nodes || !AcceptsTask(nodes[node], kind, now) {
        return false;
      }
      tasks := tasks[t := D.Task(node, kind, Pending, now)];
      return true;
    }

    method CreateFromRequest(r: CreateVmRequest, t: TaskId) returns (ok: bool)
      modifies this`vms
      ensures ok == (r.vmId.Some? && r.vmId.value !in old(vms))
      ensures vms == if ok then old(vms)[r.vmId.value := D.NewVmRow(r, t)] else old(vms)
    {
      if r.vmId.None? || r.vmId.value in vms {
        return false;
      }
      vms := vms[r.vmId.value := D.NewVmRow(r, t)];
      return true;
    }

    method ApplyTaskStatus(t: TaskId, now: int) returns (ok: bool)
      requires t in tasks
      modifies this`vms, this`allocations
      ensures ok == D.ApplyTaskStatus(old(Db()), t, now).Some?
      ensures ok ==> Db() == D.ApplyTaskStatus(old(Db()), t, now).value
    {
      var task := tasks[t];
      var next := NextVmStatus(task.kind, task.status);
      if next.None? {
        return true;
      }
      var u := next.value;
      var image := NextImage(task.kind, task.status);
      if u.vm !in vms || vms[u.vm].node != task.node {
        return false;
      }
      var vm := vms[u.vm];
      vms := vms[u.vm := vm.(
        status := u.status,
        lastTask := Some(t),
        deletedAt := if u.deleted then Some(now) else vm.deletedAt,
        assignedIp := if u.clearIp then None else vm.assignedIp,
        image := if image.Some? then image.value else vm.image)];
      if u.releaseIp {
        ReleaseForVm(u.vm, now);
      }
      return true;
    }

    method ApplyRetryCreated(t: TaskId) returns (ok: bool)
      requires t in tasks
      modifies this`vms
      ensures ok == D.ApplyRetryCreated(old(Db()), t).Some?
      ensures ok ==> Db() == D.ApplyRetryCreated(old(Db()), t).value
    {
      var task := tasks[t];
      var update := RetryVmUpdate(task.kind);
      if update.None? {
        return true;
      }
      var u := update.value;
      if u.vm !in vms || vms[u.vm].node != task.node || vms[u.vm].status == Deleted {
        return false;
      }
      var vm := vms[u.vm];
      vms := vms[u.vm := vm.(
        status := if u.status.Some? then u.status.value else vm.status,
        lastTask := Some(t),
        assignedIp := if u.ip.Some? then u.ip else vm.assignedIp)];
      return true;
    }

    method RecordActionTaskCreated(t: TaskId) returns (ok: bool)
      requires t in tasks
      modifies this`vms
      ensures ok == D.RecordActionCreated(old(Db()), t).Some?
      ensures ok ==> Db() == D.RecordActionCreated(old(Db()), t).value
    {
      var task := tasks[t];
      var vm := VmOf(task.kind);
      if vm.None? {
        return true;
      }
      if vm.value !in vms || vms[vm.value].node != task.node || vms[vm.value].status == Deleted {
        return false;
      }
      vms := vms[vm.value := vms[vm.value].(lastTask := Some(t))];
      return true;
    }

    // ----- Aggregate queries -----

    /** The `SUM(...) FILTER (...)` query over the VM inventory of a node. */
    method CommittedCapacity(node: NodeId) returns (c: Capacity)
      ensures c == D.Committed(Db(), node)
    {
      hide D.CommittedIn;
      NothingCommitted(node);
      var cpu, memoryMb, diskGb := 0, 0, 0;
      var rest := vms.Keys;
      ghost var done: map<VmId, D.Vm> := map[];
      while rest != {}
        invariant rest <= vms.Keys && done == vms - rest
        invariant cpu == D.CommittedIn(done, node, Cpu)
        invariant memoryMb == D.CommittedIn(done, node, Memory)
        invariant diskGb == D.CommittedIn(done, node, Disk)
        decreases |rest|
      {
        var v :| v in rest;
        AddRow(done, v, vms[v], node);
        rest := rest - {v};
        done := done[v := vms[v]];
        if vms[v].node == node && Counted(vms[v].status) {
          cpu := cpu + vms[v].cpu;
          memoryMb := memoryMb + vms[v].memoryMb;
          diskGb := diskGb + vms[v].diskGb;
        }
      }
      assert done == vms;
      return Capacity(cpu, memoryMb, diskGb);
    }

    static lemma NothingCommitted(node: NodeId)
      ensures forall d: Dimension :: D.CommittedIn(map[], node, d) == 0
    {
      forall d: Dimension ensures D.CommittedIn(map[], node, d) == 0 {
        assert D.Weights(map[], node, d) == map[];
      }
    }

    static lemma AddRow(done: map<VmId, D.Vm>, v: VmId, vm: D.Vm, node: NodeId)
      requires v !in done
      ensures forall d: Dimension ::
                D.CommittedIn(done[v := vm], node, d)
                == D.CommittedIn(done, node, d)
                   + (if vm.node == node && Counted(vm.status) then D.SizeOf(vm, d) else 0)
    {
      hide Sum;
      forall d: Dimension
        ensures D.CommittedIn(done[v := vm], node, d)
                == D.CommittedIn(done, node, d)
                   + (if vm.node == node && Counted(vm.status) then D.SizeOf(vm, d) else 0)
      {
        var x := if vm.node == node && Counted(vm.status) then D.SizeOf(vm, d) else 0;
        SumUpdate<VmId>(D.Weights(done, node, d), v, x);
        assert D.Weights(done[v := vm], node, d) == D.Weights(done, node, d)[v := x];
      }
    }

    method EnsureCapacity(r: CreateVmRequest) returns (ok: bool)
      ensures ok == D.HasCapacity(Db(), r)
    {
      if r.nodeId !in nodes {
        return false;
      }
      var committed := CommittedCapacity(r.nodeId);
      return CapacityAdmits(r, nodes[r.nodeId], committed);
    }

    static ghost predicate NoneIsNext(db: D.Db, node: NodeId) {
      forall t :: !D.IsNextForNode(db, node, t)
    }

    /** Creation times are distinct, so the oldest pending task is the one a poll picks. */
    static lemma PollPicks(db: D.Db, now: int, node: NodeId, t: TaskId)
      requires I.QueueOk(db) && D.IsNextForNode(db, node, t)
      requires node in db.nodes && db.nodes[node].schedulingEnabled
      ensures D.PollTask(db, now, node)
           == (db.(tasks := db.tasks[t := db.tasks[t].(status := Assigned)], clock := now), Some(t))
    {
      forall u | D.IsNextForNode(db, node, u)
        ensures u == t
      {
        assert db.tasks[u].createdAt == db.tasks[t].createdAt;
      }
    }

    static lemma PollFindsNone(db: D.Db, now: int, node: NodeId)
      requires node !in db.nodes || !db.nodes[node].schedulingEnabled || NoneIsNext(db, node)
      ensures D.PollTask(db, now, node) == (db.(clock := now), None)
    {
    }

    /** `ORDER BY created_at ASC LIMIT 1` over the pending tasks of a node. */
    method OldestPending(node: NodeId) returns (oldest: Option<TaskId>)
      ensures oldest.Some? ==> D.IsNextForNode(Db(), node, oldest.value)
      ensures oldest.None? ==> NoneIsNext(Db(), node)
    {
      oldest := None;
      var rest := tasks.Keys;
      while rest != {}
        invariant rest <= tasks.Keys
        invariant oldest.Some? ==>
                    oldest.value in tasks && tasks[oldest.value].node == node && tasks[oldest.value].status == Pending
        invariant forall u | u in tasks && u !in rest && tasks[u].node == node && tasks[u].status == Pending ::
                    oldest.Some? && tasks[oldest.value].createdAt <= tasks[u].createdAt
        decreases |rest|
      {
        var t :| t in rest;
        rest := rest - {t};
        if tasks[t].node == node && tasks[t].status == Pending
           && (oldest.None? || tasks[t].createdAt < tasks[oldest.value].createdAt) {
          oldest := Some(t);
        }
      }
    }

    // ----- Handlers -----

    /** Undoes a transaction. */
    method Rollback(before: Tables)
      modifies this
      ensures pools == before.pools && nodes == before.nodes && tasks == before.tasks && vms == before.vms
      ensures allocations == before.allocations && clock == old(clock)
    {
      nodes, pools, tasks, vms, allocations := before.nodes, before.pools, before.tasks, before.vms, before.allocations;
    }

    function Begin(): (t: Tables)
      reads this
    {
      Tables(nodes, pools, tasks, vms, allocations)
    }

    /** The reservation of a create or a retried create, and the request filled in from it. */
    method ReserveAndFill(r: CreateVmRequest, a: AllocationId) returns (filled: Option<CreateVmRequest>)
      requires a !in allocations
      modifies this`allocations
      ensures filled.Some? == D.ReserveFor(old(Db()), r, a, 0).Some?
      ensures filled.Some? ==> filled.value == D.ReserveFor(old(Db()), r, a, 0).value.0
      ensures filled.Some? && (r.poolId.None? || r.vmId.None?) ==> allocations == old(allocations)
      ensures filled.Some? && r.poolId.Some? && r.vmId.Some? ==>
                && filled.value.assignedIp.Some? && !HasActive(old(allocations), r.vmId.value)
                && allocations == old(allocations)[a := Allocation(r.poolId.value, r.vmId.value,
                                                                    filled.value.assignedIp.value, None, None)]
    {
      if r.poolId.None? || r.vmId.None? {
        return Some(r);
      }
      hide ValidForMvp, Reserve;
      var reservation := ReserveNextForVm(r.poolId.value, r.vmId.value, a);
      if reservation.None? {
        return None;
      }
      I.ReserveMeansNoActive(pools, old(allocations), r.poolId.value, r.vmId.value);
      var r1 := D.WithReservation(r, reservation.value);
      return if ValidForMvp(r1) then Some(r1) else None;
    }

    /** Reserve, insert the task, attach the allocation to it: the middle of a create and of a retried create. */
    method QueueCreate(r: CreateVmRequest, a: AllocationId, t: TaskId, node: NodeId, now: int)
      returns (queued: Option<CreateVmRequest>)
      requires a !in allocations && t !in tasks && r.vmId.Some?
      modifies this`allocations, this`tasks
      ensures queued.Some? == Queued(old(Db()), r, a, t, node, now).Some?
      ensures queued.Some? ==> (queued.value, Db()) == Queued(old(Db()), r, a, t, node, now).value
    {
      var filled := ReserveAndFill(r, a);
      ReserveForTask(old(Db()), r, a, t);
      if filled.None? {
        return None;
      }
      hide Reserve, ValidForMvp, AcceptsTask, HasActive, D.ReserveFor, Attach, Insert, ActiveFor;
      var r1 := filled.value;
      var created := InsertTask(t, node, CreateVm(r1), now);
      if !created {
        return None;
      }
      var attached := AttachIfPooled(r1, t);
      if r.poolId.Some? {
        AttachTouchesOne(old(allocations), a, r.poolId.value, r.vmId.value, r1.assignedIp.value, t);
      }
      return if attached then Some(r1) else None;
    }

    static ghost function Queued(db: D.Db, r: CreateVmRequest, a: AllocationId, t: TaskId, node: NodeId, now: int)
      : Option<(CreateVmRequest, D.Db)>
    {
      match D.ReserveFor(db, r, a, t)
      case None => None
      case Some((r1, allocations)) =>
        match D.CreateTask(db.(allocations := allocations), t, node, CreateVm(r1), now)
        case None => None
        case Some(db1) => Some((r1, db1))
    }

    /** The task id plays no part in what is reserved; it only labels the inserted row. */
    static lemma ReserveForTask(db: D.Db, r: CreateVmRequest, a: AllocationId, t: TaskId)
      ensures var x, y := D.ReserveFor(db, r, a, 0), D.ReserveFor(db, r, a, t);
              && (x.Some? <==> y.Some?)
              && (x.Some? ==>
                    && x.value.0 == y.value.0 && x.value.0.poolId == r.poolId && x.value.0.vmId == r.vmId
                    && y.value.1 == if r.poolId.None? || r.vmId.None? || x.value.0.assignedIp.None? then db.allocations
                                    else Insert(db.allocations, a, r.poolId.value, r.vmId.value,
                                          x.value.0.assignedIp.value, t))
    {
      hide Reserve, ValidForMvp;
    }

    /** After a reservation exactly one active row of the VM exists, so attaching touches exactly one row. */
    static lemma AttachTouchesOne(before: Allocations, a: AllocationId, pool: PoolId, vm: VmId, ip: Ip, t: TaskId)
      requires a !in before && !HasActive(before, vm)
      ensures var after := before[a := Allocation(pool, vm, ip, None, None)];
              && ActiveFor(after, vm) == {a}
              && Attach(after, vm, t) == Insert(before, a, pool, vm, ip, t)
    {
    }

    method AttachIfPooled(r: CreateVmRequest, t: TaskId) returns (ok: bool)
      modifies this`allocations
      ensures r.poolId.None? || r.vmId.None? ==> ok && allocations == old(allocations)
      ensures r.poolId.Some? && r.vmId.Some? ==>
                && ok == (|ActiveFor(old(allocations), r.vmId.value)| == 1)
                && allocations == Attach(old(allocations), r.vmId.value, t)
    {
      if r.poolId.None? || r.vmId.None? {
        return true;
      }
      var rows := AttachTask(r.vmId.value, t);
      return rows == 1;
    }

    method CreateVmInTx(now: int, t: TaskId, a: AllocationId, newVm: VmId, request: CreateVmRequest,
                        plan: D.PlanLookup, imageEnabled: bool) returns (ok: bool)
      requires t !in tasks && a !in allocations
      modifies this`tasks, this`vms, this`allocations
      ensures ok == D.CreateVmTask(old(Db()), now, t, a, newVm, request, plan, imageEnabled).Some?
      ensures ok ==> D.CreateVmTask(old(Db()), now, t, a, newVm, request, plan, imageEnabled).value
                     == Db().(clock := now)
    {
      var normalized := D.NormalizedRequest(request, newVm, plan);
      if normalized.None? {
        return false;
      }
      var r := normalized.value;
      var fits := EnsureCapacity(r);
      if !ValidForMvp(r) || !imageEnabled || !fits {
        return false;
      }
      hide ValidForMvp, AcceptsTask, D.HasCapacity, D.ReserveFor;
      var queued := QueueCreate(r, a, t, r.nodeId, now);
      ReserveForTask(old(Db()), r, a, t);
      if queued.None? {
        return false;
      }
      ok := CreateFromRequest(queued.value, t);
    }

    /** `create_vm_task` */
    method CreateVmTask(now: int, t: TaskId, a: AllocationId, newVm: VmId, request: CreateVmRequest,
                        plan: D.PlanLookup, imageEnabled: bool) returns (ok: bool)
      requires t !in tasks && a !in allocations
      modifies this
      ensures ok == D.CreateVmTask(old(Db()), now, t, a, newVm, request, plan, imageEnabled).Some?
      ensures Db() == if ok then D.CreateVmTask(old(Db()), now, t, a, newVm, request, plan, imageEnabled).value
                      else old(Db())
    {
      var before := Begin();
      ok := CreateVmInTx(now, t, a, newVm, request, plan, imageEnabled);
      if ok {
        clock := now;
      } else {
        Rollback(before);
      }
    }

    method ActionInTx(now: int, t: TaskId, node: NodeId, vm: VmId, action: VmAction) returns (ok: bool)
      requires t !in tasks && action != Reinstall
      modifies this`tasks, this`vms, this`allocations
      ensures ok == D.ActionTask(old(Db()), now, t, node, vm, action, None, false).Some?
      ensures ok ==> D.ActionTask(old(Db()), now, t, node, vm, action, None, false).value == Db().(clock := now)
    {
      if vm !in vms || vms[vm].node != node || !ActionAllowed(action, D.LifecycleOf(CurrentDb(), vm)) {
        return false;
      }
      hide ActionAllowed, AcceptsTask, NextVmStatus, NextImage;
      var kind := ActionKind(action, vm, vms[vm].image, vms[vm].diskGb);
      var created := InsertTask(t, node, kind, now);
      if !created {
        return false;
      }
      var recorded := RecordActionTaskCreated(t);
      if !recorded {
        return false;
      }
      ok := ApplyTaskStatus(t, now);
    }

    /** The tables as one value, for the read-only join of the lifecycle query. */
    function CurrentDb(): (db: D.Db)
      reads this
      ensures db.tasks == tasks && db.vms == vms
    {
      D.Db(nodes, pools, tasks, vms, allocations, 0)
    }

    /** `start_vm_task`, `stop_vm_task`, `reboot_vm_task` and `delete_vm_task` through `create_vm_action_task`. */
    method CreateVmActionTask(now: int, t: TaskId, node: NodeId, vm: VmId, action: VmAction) returns (ok: bool)
      requires t !in tasks && action != Reinstall
      modifies this
      ensures ok == D.ActionTask(old(Db()), now, t, node, vm, action, None, false).Some?
      ensures Db() == if ok then D.ActionTask(old(Db()), now, t, node, vm, action, None, false).value else old(Db())
    {
      var before := Begin();
      ok := ActionInTx(now, t, node, vm, action);
      if ok {
        clock := now;
      } else {
        Rollback(before);
      }
    }

    method ReinstallInTx(now: int, t: TaskId, node: NodeId, vm: VmId, image: Option<string>, imageEnabled: bool)
      returns (ok: bool)
      requires t !in tasks
      modifies this`tasks, this`vms, this`allocations
      ensures ok == D.ActionTask(old(Db()), now, t, node, vm, Reinstall, image, imageEnabled).Some?
      ensures ok ==> D.ActionTask(old(Db()), now, t, node, vm, Reinstall, image, imageEnabled).value
                     == Db().(clock := now)
    {
      if vm !in vms || vms[vm].node != node || !ActionAllowed(Reinstall, D.LifecycleOf(CurrentDb(), vm)) {
        return false;
      }
      hide ActionAllowed, AcceptsTask, NextVmStatus, NextImage;
      if !imageEnabled {
        return false;
      }
      var spec := ReinstallVm(vm, if image.Some? then image.value else vms[vm].image, vms[vm].diskGb);
      var created := InsertTask(t, node, spec, now);
      if !created {
        return false;
      }
      ok := ApplyTaskStatus(t, now);
    }

    /** `reinstall_vm_task` */
    method ReinstallVmTask(now: int, t: TaskId, node: NodeId, vm: VmId, image: Option<string>, imageEnabled: bool)
      returns (ok: bool)
      requires t !in tasks
      modifies this
      ensures ok == D.ActionTask(old(Db()), now, t, node, vm, Reinstall, image, imageEnabled).Some?
      ensures Db() == if ok then D.ActionTask(old(Db()), now, t, node, vm, Reinstall, image, imageEnabled).value
                      else old(Db())
    {
      var before := Begin();
      ok := ReinstallInTx(now, t, node, vm, image, imageEnabled);
      if ok {
        clock := now;
      } else {
        Rollback(before);
      }
    }

    /** `cancel_task` */
    method CancelTask(now: int, t: TaskId) returns (ok: bool)
      modifies this
      ensures ok == D.CancelTask(old(Db()), now, t).Some?
      ensures Db() == if ok then D.CancelTask(old(Db()), now, t).value else old(Db())
    {
      if t !in tasks || !AdminMayCancel(tasks[t].status) {
        return false;
      }
      var before := Begin();
      tasks := tasks[t := tasks[t].(status := Canceled)];
      ok := ApplyTaskStatus(t, now);
      if ok {
        clock := now;
      } else {
        Rollback(before);
      }
    }

    /** `agent_update_task_status` */
    method AgentUpdateTaskStatus(now: int, t: TaskId, node: NodeId, status: TaskStatus,
                                 messageOk: bool) returns (ok: bool)
      modifies this
      ensures ok == D.ReportStatus(old(Db()), now, t, node, status, messageOk).Some?
      ensures Db() == if ok then D.ReportStatus(old(Db()), now, t, node, status, messageOk).value else old(Db())
    {
      if !AgentMayReport(status) || t !in tasks || tasks[t].node != node
         || !ValidAgentTransition(tasks[t].status, status) || (status == Failed && !messageOk) {
        return false;
      }
      var before := Begin();
      tasks := tasks[t := tasks[t].(status := status)];
      ok := ApplyTaskStatus(t, now);
      if ok {
        clock := now;
      } else {
        Rollback(before);
      }
    }

    /** `agent_poll_task` */
    method AgentPollTask(now: int, node: NodeId) returns (task: Option<TaskId>)
      requires I.Inv(Db())
      modifies this
      ensures (Db(), task) == D.PollTask(old(Db()), now, node)
    {
      assert I.QueueOk(Db());
      hide I.Inv, I.QueueOk, D.PollTask, NoneIsNext;
      task := None;
      if node in nodes && nodes[node].schedulingEnabled {
        task := OldestPending(node);
        if task.Some? {
          var t := task.value;
          tasks := tasks[t := tasks[t].(status := Assigned)];
          clock := now;
          PollPicks(old(Db()), now, node, t);
          return;
        }
      }
      clock := now;
      PollFindsNone(old(Db()), now, node);
    }

    method RetryInTx(now: int, t: TaskId, a: AllocationId, source: TaskId, imageEnabled: bool) returns (ok: bool)
      requires t !in tasks && a !in allocations
      modifies this`tasks, this`vms, this`allocations
      ensures ok == D.RetryTask(old(Db()), now, t, a, source, imageEnabled).Some?
      ensures ok ==> D.RetryTask(old(Db()), now, t, a, source, imageEnabled).value == Db().(clock := now)
    {
      if source !in tasks || tasks[source].status !in {Failed, Canceled} {
        return false;
      }
      var node, kind := tasks[source].node, tasks[source].kind;
      if (kind.CreateVm? || kind.ReinstallVm?) && !imageEnabled {
        return false;
      }
      var vm := VmOf(kind);
      if vm.None? || vm.value !in vms || vms[vm.value].node != node
         || !RetryAllowed(kind, D.LifecycleOf(CurrentDb(), vm.value)) {
        return false;
      }
      hide ValidForMvp, AcceptsTask, RetryAllowed, RetryVmUpdate, D.HasCapacity, D.ReserveFor;
      if kind.CreateVm? {
        var fits := EnsureCapacity(kind.request);
        if !fits {
          return false;
        }
        var queued := QueueCreate(kind.request, a, t, node, now);
        if queued.None? {
          return false;
        }
      } else {
        var created := InsertTask(t, node, kind, now);
        if !created {
          return false;
        }
      }
      ok := ApplyRetryCreated(t);
    }

    /** `retry_task` */
    method RetryTask(now: int, t: TaskId, a: AllocationId, source: TaskId, imageEnabled: bool) returns (ok: bool)
      requires t !in tasks && a !in allocations
      modifies this
      ensures ok == D.RetryTask(old(Db()), now, t, a, source, imageEnabled).Some?
      ensures Db() == if ok then D.RetryTask(old(Db()), now, t, a, source, imageEnabled).value else old(Db())
    {
      var before := Begin();
      ok := RetryInTx(now, t, a, source, imageEnabled);
      if ok {
        clock := now;
      } else {
        Rollback(before);
      }
    }

    /** `create_ip_pool` */
    method CreateIpPool(now: int, pool: PoolId, cidr: string, gateway: string, nameOk: bool) returns (ok: bool)
      modifies this
      ensures ok == D.CreatePool(old(Db()), now, pool, cidr, gateway, nameOk).Some?
      ensures Db() == if ok then D.CreatePool(old(Db()), now, pool, cidr, gateway, nameOk).value else old(Db())
    {
      var p := NewPool(cidr, gateway);
      if !nameOk || pool in pools || p.None? {
        return false;
      }
      pools := pools[pool := p.value];
      clock := now;
      return true;
    }
  }

  datatype Tables = Tables(
    nodes: map<NodeId, NodeRow>,
    pools: map<PoolId, Pool>,
    tasks: map<TaskId, D.Task>,
    vms: map<VmId, D.Vm>,
    allocations: Allocations)
}
