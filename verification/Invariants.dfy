/** The inductive invariant of the master, and the proof that every handler keeps it. */
module Invariants {
  import opened Wrappers
  import opened Ipv4
  import opened Tasks
  import opened Vms
  import opened Ipam
  import opened Nodes
  import opened Database

  /** The sizes, the node and the pool of a create task are those of the VM row it made. */
  ghost predicate MatchesVm(r: CreateVmRequest, node: NodeId, vm: Vm) {
    && r.nodeId == node && r.poolId == vm.pool
    && r.cpu == vm.cpu && r.memoryMb == vm.memoryMb && r.diskGb == vm.diskGb
    && (r.poolId.None? ==> r.assignedIp.None?)
    && r.textsValid && ValidSizes(r)
  }

  ghost predicate TaskOk(db: Db, t: TaskId)
    requires t in db.tasks
  {
    var task := db.tasks[t];
    var v := VmOf(task.kind);
    && v.Some? && VmOnNode(db, v.value, task.node)
    && (IsActive(task.status) ==> db.vms[v.value].lastTask == Some(t))
    && (task.kind.CreateVm? ==> MatchesVm(task.kind.request, task.node, db.vms[v.value]))
    && task.createdAt <= db.clock
  }

  ghost predicate Owns(row: Allocation, vm: VmId, pool: PoolId, ip: Ip) {
    row.Active() && row.vm == vm && row.pool == pool && row.ip == ip
  }

  ghost predicate VmOk(db: Db, v: VmId)
    requires v in db.vms
  {
    var vm := db.vms[v];
    && vm.lastTask.Some? && vm.lastTask.value in db.tasks
    && VmOf(db.tasks[vm.lastTask.value].kind) == Some(v)
    && Mirrors(db.tasks[vm.lastTask.value].kind, db.tasks[vm.lastTask.value].status, vm.status)
    && (vm.deletedAt.Some? <==> vm.status == Deleted)
    && (vm.assignedIp.Some? ==>
          vm.pool.Some? && vm.status != Deleted
          && exists a | a in db.allocations :: Owns(db.allocations[a], v, vm.pool.value, vm.assignedIp.value))
  }

  ghost predicate AllocationOk(db: Db, a: AllocationId)
    requires a in db.allocations
  {
    var row := db.allocations[a];
    row.Active() ==>
      && row.vm in db.vms
      && db.vms[row.vm].pool == Some(row.pool)
      && db.vms[row.vm].assignedIp == Some(row.ip)
  }

  predicate Claimed(status: TaskStatus) {
    status in {Assigned, Running, Succeeded, Failed}
  }

  /** Tasks are created at different times, and claimed oldest first on each node. */
  ghost predicate QueueOk(db: Db) {
    && (forall t, u | t in db.tasks && u in db.tasks && db.tasks[t].createdAt == db.tasks[u].createdAt :: t == u)
    && (forall t, u | t in db.tasks && u in db.tasks && db.tasks[t].node == db.tasks[u].node
                      && Claimed(db.tasks[t].status) && db.tasks[u].status == Pending ::
          db.tasks[t].createdAt < db.tasks[u].createdAt)
  }

  ghost predicate Inv(db: Db) {
    && (forall p | p in db.pools :: PoolOk(db.pools[p]))
    && (forall t | t in db.tasks :: TaskOk(db, t))
    && (forall v | v in db.vms :: VmOk(db, v))
    && (forall a | a in db.allocations :: AllocationOk(db, a))
    && AllocationsOk(db.pools, db.allocations)
    && QueueOk(db)
  }

  lemma EmptyInv()
    ensures Inv(Empty())
  {
  }

  lemma QueueFrame(db: Db, db': Db)
    requires QueueOk(db) && db'.tasks == db.tasks
    ensures QueueOk(db')
  {
  }

  // ----- A task changes status -----

  predicate StatusChange(before: TaskStatus, after: TaskStatus) {
    ValidAgentTransition(before, after) || (AdminMayCancel(before) && after == Canceled)
  }

  /** Settling an active task: the common part of a cancellation and of a status report. */
  ghost function Settled(db: Db, t: TaskId, status: TaskStatus, now: int): Option<Db>
    requires t in db.tasks
  {
    ApplyTaskStatus(db.(tasks := db.tasks[t := db.tasks[t].(status := status)]), t, now)
  }

  /** What a status change means for the VM: the row keeps mirroring the task, whatever the kind. */
  lemma NextStatusMirrors(kind: TaskKind, before: TaskStatus, after: TaskStatus, vm: VmStatus)
    requires VmOf(kind).Some? && Mirrors(kind, before, vm) && StatusChange(before, after)
    ensures vm != Deleted
    ensures var u := NextVmStatus(kind, after);
            if u.None? then Mirrors(kind, after, vm)
            else
              && u.value.vm == VmOf(kind).value
              && Mirrors(kind, after, u.value.status)
              && (u.value.deleted <==> u.value.status == Deleted)
              && (u.value.clearIp <==> u.value.releaseIp)
              && (u.value.deleted ==> u.value.clearIp)
  {
  }

  lemma StatusChangeFromActive(before: TaskStatus, after: TaskStatus)
    requires StatusChange(before, after)
    ensures IsActive(before) && after != Pending && Rank(after) < Rank(before)
    ensures Claimed(after) ==> Claimed(before)
  {
  }

  /** Two VM rows that agree on everything a task or an allocation refers to. */
  predicate SameShape(x: Vm, y: Vm) {
    x.node == y.node && x.pool == y.pool && x.cpu == y.cpu && x.memoryMb == y.memoryMb && x.diskGb == y.diskGb
  }

  ghost predicate SettleEffect(db: Db, db': Db, t: TaskId, v: VmId, status: TaskStatus, now: int)
    requires t in db.tasks
  {
    && VmOf(db.tasks[t].kind) == Some(v)
    && v in db.vms && v in db'.vms
    && db'.tasks == db.tasks[t := db.tasks[t].(status := status)]
    && db'.vms == db.vms[v := db'.vms[v]]
    && SameShape(db.vms[v], db'.vms[v])
    && db.vms[v].lastTask == Some(t) && db'.vms[v].lastTask == Some(t)
    && Mirrors(db.tasks[t].kind, status, db'.vms[v].status)
    && (db'.vms[v].deletedAt.Some? <==> db'.vms[v].status == Deleted)
    && db'.nodes == db.nodes && db'.pools == db.pools && db'.clock == db.clock
    && (|| (db'.allocations == db.allocations && db'.vms[v].assignedIp == db.vms[v].assignedIp
            && db'.vms[v].status != Deleted)
        || (db'.allocations == Release(db.allocations, v, now) && db'.vms[v].assignedIp == None))
  }

  lemma TaskFacts(db: Db, t: TaskId)
    requires Inv(db) && t in db.tasks
    ensures TaskOk(db, t) && VmOk(db, VmOf(db.tasks[t].kind).value)
  {
    assert TaskOk(db, t);
  }

  lemma SettleRow(db: Db, t: TaskId, v: VmId, status: TaskStatus, now: int)
    requires t in db.tasks && VmOf(db.tasks[t].kind) == Some(v) && VmOnNode(db, v, db.tasks[t].node)
    requires db.vms[v].lastTask == Some(t) && db.vms[v].deletedAt.None?
    requires var u := NextVmStatus(db.tasks[t].kind, status);
             if u.None? then Mirrors(db.tasks[t].kind, status, db.vms[v].status) && db.vms[v].status != Deleted
             else
               && u.value.vm == v && Mirrors(db.tasks[t].kind, status, u.value.status)
               && (u.value.deleted <==> u.value.status == Deleted) && (u.value.clearIp <==> u.value.releaseIp)
               && (u.value.deleted ==> u.value.clearIp)
    ensures Settled(db, t, status, now).Some?
    ensures SettleEffect(db, Settled(db, t, status, now).value, t, v, status, now)
  {
    hide NextVmStatus, Mirrors, NextImage, Release, VmOf;
    var db' := Settled(db, t, status, now).value;
    assert db'.vms == db.vms[v := db'.vms[v]];
  }

  lemma SettleHasEffect(db: Db, t: TaskId, status: TaskStatus, now: int)
    requires Inv(db) && t in db.tasks && StatusChange(db.tasks[t].status, status)
    ensures Settled(db, t, status, now).Some?
    ensures VmOf(db.tasks[t].kind).Some?
    ensures SettleEffect(db, Settled(db, t, status, now).value, t, VmOf(db.tasks[t].kind).value, status, now)
  {
    TaskFacts(db, t);
    StatusChangeFromActive(db.tasks[t].status, status);
    hide Settled, SettleEffect, StatusChange, Inv;
    var v := VmOf(db.tasks[t].kind).value;
    NextStatusMirrors(db.tasks[t].kind, db.tasks[t].status, status, db.vms[v].status);
    hide NextVmStatus, Mirrors;
    SettleRow(db, t, v, status, now);
  }

  lemma SettleTasks(db: Db, db': Db, t: TaskId, v: VmId, status: TaskStatus, now: int)
    requires Inv(db) && t in db.tasks && SettleEffect(db, db', t, v, status, now)
    requires IsActive(db.tasks[t].status)
    ensures forall u | u in db'.tasks :: TaskOk(db', u)
  {
    hide PoolOk, Allocatable, Mirrors, QueueOk, AllocationsOk, VmOk, AllocationOk;
    forall u | u in db'.tasks ensures TaskOk(db', u) {
      assert TaskOk(db, u);
    }
  }

  lemma SettleVms(db: Db, db': Db, t: TaskId, v: VmId, status: TaskStatus, now: int)
    requires Inv(db) && t in db.tasks && SettleEffect(db, db', t, v, status, now)
    ensures forall w | w in db'.vms :: VmOk(db', w)
  {
    hide PoolOk, Allocatable, Mirrors, QueueOk, AllocationsOk, TaskOk, AllocationOk;
    forall w | w in db'.vms ensures VmOk(db', w) {
      assert VmOk(db, w);
      var vm := db.vms[w];
      if db'.vms[w].assignedIp.Some? {
        var a :| a in db.allocations && Owns(db.allocations[a], w, vm.pool.value, vm.assignedIp.value);
        assert Owns(db'.allocations[a], w, vm.pool.value, vm.assignedIp.value);
      }
    }
  }

  lemma SettleAllocations(db: Db, db': Db, t: TaskId, v: VmId, status: TaskStatus, now: int)
    requires Inv(db) && t in db.tasks && SettleEffect(db, db', t, v, status, now)
    ensures forall a | a in db'.allocations :: AllocationOk(db', a)
    ensures AllocationsOk(db'.pools, db'.allocations)
  {
    hide PoolOk, Allocatable, Mirrors, QueueOk, TaskOk, VmOk;
    ReleaseEffect(db.pools, db.allocations, v, now);
    forall a | a in db'.allocations ensures AllocationOk(db', a) {
      assert AllocationOk(db, a);
    }
  }

  lemma StatusChangeKeepsQueue(db: Db, tasks: map<TaskId, Task>, t: TaskId, status: TaskStatus)
    requires QueueOk(db) && t in db.tasks && StatusChange(db.tasks[t].status, status)
    requires tasks == db.tasks[t := db.tasks[t].(status := status)]
    ensures QueueOk(db.(tasks := tasks))
  {
    StatusChangeFromActive(db.tasks[t].status, status);
  }

  lemma SettledInv(db: Db, db': Db, t: TaskId, v: VmId, status: TaskStatus, now: int)
    requires Inv(db) && t in db.tasks && StatusChange(db.tasks[t].status, status)
    requires SettleEffect(db, db', t, v, status, now)
    ensures Inv(db')
  {
    hide TaskOk, VmOk, AllocationOk, AllocationsOk, PoolOk, Mirrors, StatusChange, QueueOk;
    StatusChangeFromActive(db.tasks[t].status, status);
    SettleTasks(db, db', t, v, status, now);
    SettleVms(db, db', t, v, status, now);
    SettleAllocations(db, db', t, v, status, now);
    StatusChangeKeepsQueue(db, db'.tasks, t, status);
    QueueFrame(db.(tasks := db'.tasks), db');
  }

  lemma ClockInv(db: Db, now: int)
    requires Inv(db) && now >= db.clock
    ensures Inv(db.(clock := now))
  {
    hide PoolOk, Allocatable, AllocationsOk, Mirrors, QueueOk;
    var db' := db.(clock := now);
    forall t | t in db'.tasks ensures TaskOk(db', t) {
      assert TaskOk(db, t);
    }
    forall v | v in db'.vms ensures VmOk(db', v) {
      assert VmOk(db, v);
    }
    forall a | a in db'.allocations ensures AllocationOk(db', a) {
      assert AllocationOk(db, a);
    }
    QueueFrame(db, db');
  }

  // ----- A new task for an existing VM -----

  /** The VM has no task in flight: its last task is over, and no other task can be active. */
  lemma NoTaskInFlight(db: Db, v: VmId, t: TaskId)
    requires Inv(db) && v in db.vms && !HasActiveTask(LifecycleOf(db, v).lastTaskStatus)
    requires t in db.tasks && VmOf(db.tasks[t].kind) == Some(v)
    ensures !IsActive(db.tasks[t].status)
  {
    assert TaskOk(db, t);
  }

  /** What queueing a task does: the new row, the VM pointing at it, and perhaps a new allocation. */
  ghost predicate QueueEffect(db: Db, db': Db, t: TaskId, node: NodeId, kind: TaskKind, v: VmId, a: AllocationId,
                              now: int) {
    && t !in db.tasks && a !in db.allocations && now > db.clock
    && VmOf(kind) == Some(v)
    && VmOnNode(db, v, node) && v in db'.vms
    && !HasActiveTask(LifecycleOf(db, v).lastTaskStatus) && db.vms[v].status !in {Deleted, Deleting, Provisioning}
    && db'.tasks == db.tasks[t := Task(node, kind, Pending, now)]
    && db'.vms == db.vms[v := db'.vms[v]]
    && SameShape(db.vms[v], db'.vms[v])
    && (kind.CreateVm? ==> MatchesVm(kind.request, node, db'.vms[v]) && HasCapacity(db, kind.request))
    && db'.vms[v].lastTask == Some(t)
    && Mirrors(kind, Pending, db'.vms[v].status) && db'.vms[v].status != Deleted && db'.vms[v].deletedAt.None?
    && db'.nodes == db.nodes && db'.pools == db.pools && db'.clock == now
    && (|| (db'.allocations == db.allocations && db'.vms[v].assignedIp == db.vms[v].assignedIp)
        || ReservedIn(db, db', t, v, a))
  }

  /** The allocation part of a retried create: the lowest free address, now on the VM. */
  ghost predicate ReservedIn(db: Db, db': Db, t: TaskId, v: VmId, a: AllocationId)
    requires v in db'.vms
  {
    && db'.vms[v].pool.Some? && db'.vms[v].pool.value in db.pools
    && Reserve(db.pools, db.allocations, db'.vms[v].pool.value, v).Some?
    && var ip := Reserve(db.pools, db.allocations, db'.vms[v].pool.value, v).value.address;
       && db'.vms[v].assignedIp == Some(ip)
       && db'.allocations == Insert(db.allocations, a, db'.vms[v].pool.value, v, ip, t)
  }

  lemma QueueTasks(db: Db, db': Db, t: TaskId, node: NodeId, kind: TaskKind, v: VmId, a: AllocationId, now: int)
    requires Inv(db) && QueueEffect(db, db', t, node, kind, v, a, now)
    ensures forall u | u in db'.tasks :: TaskOk(db', u)
  {
    hide PoolOk, Allocatable, Mirrors, AllocationsOk, VmOk, AllocationOk, ReservedIn, QueueOk;
    forall u | u in db'.tasks ensures TaskOk(db', u) {
      if u != t {
        assert TaskOk(db, u);
        if VmOf(db.tasks[u].kind) == Some(v) {
          NoTaskInFlight(db, v, u);
        }
      }
    }
  }

  lemma QueueVms(db: Db, db': Db, t: TaskId, node: NodeId, kind: TaskKind, v: VmId, a: AllocationId, now: int)
    requires Inv(db) && QueueEffect(db, db', t, node, kind, v, a, now)
    ensures forall w | w in db'.vms :: VmOk(db', w)
  {
    hide PoolOk, Allocatable, Mirrors, AllocationsOk, TaskOk, AllocationOk, QueueOk, Reserve, MatchesVm;
    forall w | w in db'.vms ensures VmOk(db', w) {
      assert VmOk(db, w);
      var vm := db.vms[w];
      if db'.allocations == db.allocations || w != v {
        if vm.assignedIp.Some? {
          var b :| b in db.allocations && Owns(db.allocations[b], w, vm.pool.value, vm.assignedIp.value);
          assert Owns(db'.allocations[b], w, vm.pool.value, vm.assignedIp.value);
        }
      } else {
        assert Owns(db'.allocations[a], v, db'.vms[v].pool.value, db'.vms[v].assignedIp.value);
      }
    }
  }

  lemma QueueAllocations(db: Db, db': Db, t: TaskId, node: NodeId, kind: TaskKind, v: VmId, a: AllocationId, now: int)
    requires Inv(db) && QueueEffect(db, db', t, node, kind, v, a, now)
    ensures forall b | b in db'.allocations :: AllocationOk(db', b)
    ensures AllocationsOk(db'.pools, db'.allocations)
  {
    hide PoolOk, Allocatable, Mirrors, TaskOk, VmOk, QueueOk, Reserve, MatchesVm, AllocationsOk;
    if db'.allocations != db.allocations {
      InsertKeepsIndexes(db.pools, db.allocations, a, db'.vms[v].pool.value, v, t);
      ReserveMeansNoActive(db.pools, db.allocations, db'.vms[v].pool.value, v);
    }
    forall b | b in db'.allocations ensures AllocationOk(db', b) {
      if b in db.allocations {
        assert AllocationOk(db, b);
      }
    }
  }

  lemma ReserveMeansNoActive(pools: map<PoolId, Pool>, allocs: Allocations, pool: PoolId, v: VmId)
    requires Reserve(pools, allocs, pool, v).Some?
    ensures pool in pools
    ensures forall b | b in allocs && allocs[b].Active() :: allocs[b].vm != v
  {
  }

  lemma NewTaskKeepsQueue(db: Db, tasks: map<TaskId, Task>, t: TaskId, node: NodeId, kind: TaskKind, now: int)
    requires QueueOk(db) && t !in db.tasks
    requires forall u | u in db.tasks :: db.tasks[u].createdAt < now
    requires tasks == db.tasks[t := Task(node, kind, Pending, now)]
    ensures QueueOk(db.(tasks := tasks))
  {
  }

  lemma QueueInv(db: Db, db': Db, t: TaskId, node: NodeId, kind: TaskKind, v: VmId, a: AllocationId, now: int)
    requires Inv(db) && QueueEffect(db, db', t, node, kind, v, a, now)
    ensures Inv(db')
  {
    hide VmOk, AllocationOk, AllocationsOk, PoolOk, Mirrors, ReservedIn, MatchesVm, QueueOk;
    QueueTasks(db, db', t, node, kind, v, a, now);
    QueueVms(db, db', t, node, kind, v, a, now);
    QueueAllocations(db, db', t, node, kind, v, a, now);
    forall u | u in db.tasks ensures db.tasks[u].createdAt < now {
      assert TaskOk(db, u);
    }
    NewTaskKeepsQueue(db, db'.tasks, t, node, kind, now);
    QueueFrame(db.(tasks := db'.tasks), db');
  }

  lemma ActionMirrors(action: VmAction, kind: TaskKind, l: Lifecycle, v: VmId, image: string, diskGb: nat)
    requires ActionAllowed(action, l) && kind == ActionKind(action, v, image, diskGb)
    ensures !HasActiveTask(l.lastTaskStatus) && l.status !in {Deleted, Deleting, Provisioning}
    ensures VmOf(kind) == Some(v) && !kind.CreateVm? && NextImage(kind, Pending).None?
    ensures var u := NextVmStatus(kind, Pending);
            if u.None? then action != Reinstall && Mirrors(kind, Pending, l.status)
            else
              && u.value == VmUpdate(v, u.value.status, false, false, false)
              && u.value.status != Deleted && Mirrors(kind, Pending, u.value.status)
  {
  }

  lemma VmFacts(db: Db, v: VmId)
    requires Inv(db) && v in db.vms
    ensures VmOk(db, v)
  {
  }

  lemma ActionHasEffect(db: Db, now: int, t: TaskId, node: NodeId, v: VmId, action: VmAction,
                        image: Option<string>, enabled: bool, a: AllocationId) returns (kind: TaskKind)
    requires Inv(db) && now > db.clock && t !in db.tasks && a !in db.allocations
    requires ActionTask(db, now, t, node, v, action, image, enabled).Some?
    ensures !kind.CreateVm?
    ensures QueueEffect(db, ActionTask(db, now, t, node, v, action, image, enabled).value, t, node, kind, v, a, now)
  {
    hide Inv, NextVmStatus, NextImage, Mirrors, AcceptsTask, ActionAllowed, HasCapacity, Release;
    var row := db.vms[v];
    VmFacts(db, v);
    kind := ActionKind(action, v, if image.Some? then image.value else row.image, row.diskGb);
    ActionMirrors(action, kind, LifecycleOf(db, v), v, if image.Some? then image.value else row.image, row.diskGb);
    var db' := ActionTask(db, now, t, node, v, action, image, enabled).value;
    assert db'.vms == db.vms[v := db'.vms[v]];
    assert QueueEffect(db, db', t, node, kind, v, a, now);
  }

  lemma RetryMirrors(kind: TaskKind, l: Lifecycle)
    requires RetryAllowed(kind, l) && VmOf(kind).Some?
    ensures !HasActiveTask(l.lastTaskStatus) && l.status !in {Deleted, Deleting, Provisioning}
    ensures RetryVmUpdate(kind).Some?
    ensures var u := RetryVmUpdate(kind).value;
            && u.vm == VmOf(kind).value
            && u.ip == (if kind.CreateVm? then kind.request.assignedIp else None)
            && u.status != Some(Deleted)
            && Mirrors(kind, Pending, if u.status.Some? then u.status.value else l.status)
  {
  }

  /** A retried create keeps everything of the source task but the addresses. */
  lemma RetryUpdateOf(source: TaskKind, kind: TaskKind)
    requires if source.CreateVm? then kind.CreateVm? && kind.request.vmId == source.request.vmId else kind == source
    requires VmOf(source).Some?
    ensures RetryVmUpdate(source).Some? && RetryVmUpdate(kind).Some?
    ensures RetryVmUpdate(kind).value.vm == RetryVmUpdate(source).value.vm
    ensures RetryVmUpdate(kind).value.status == RetryVmUpdate(source).value.status
    ensures RetryVmUpdate(kind).value.ip == (if kind.CreateVm? then kind.request.assignedIp else None)
    ensures forall s: VmStatus :: Mirrors(source, Pending, s) <==> Mirrors(kind, Pending, s)
  {
  }

  lemma AddressesDoNotMatter(db: Db, r: CreateVmRequest, r': CreateVmRequest)
    requires r' == r.(assignedIp := r'.assignedIp, assignedPrefix := r'.assignedPrefix,
          assignedGateway := r'.assignedGateway)
    ensures HasCapacity(db, r) <==> HasCapacity(db, r')
    ensures ValidSizes(r) <==> ValidSizes(r')
  {
  }

  lemma RetryHasEffect(db: Db, now: int, t: TaskId, a: AllocationId, source: TaskId, enabled: bool)
    returns (kind: TaskKind, v: VmId)
    requires Inv(db) && now > db.clock && t !in db.tasks && a !in db.allocations
    requires RetryTask(db, now, t, a, source, enabled).Some?
    ensures source in db.tasks && (kind.CreateVm? <==> db.tasks[source].kind.CreateVm?)
    ensures VmOf(db.tasks[source].kind) == Some(v)
    ensures QueueEffect(db, RetryTask(db, now, t, a, source, enabled).value, t, db.tasks[source].node, kind, v, a, now)
  {
    hide Inv, Mirrors, AcceptsTask, RetryAllowed, ValidForMvp, Reserve, RetryVmUpdate, Committed, ValidSizes;
    TaskFacts(db, source);
    var node, kind0 := db.tasks[source].node, db.tasks[source].kind;
    v := VmOf(kind0).value;
    kind := if kind0.CreateVm? then CreateVm(ReserveFor(db, kind0.request, a, t).value.0) else kind0;
    RetryMirrors(kind0, LifecycleOf(db, v));
    RetryUpdateOf(kind0, kind);
    if kind0.CreateVm? {
      AddressesDoNotMatter(db, kind0.request, kind.request);
    }
    hide HasCapacity;
    var db' := RetryTask(db, now, t, a, source, enabled).value;
    assert db'.vms == db.vms[v := db'.vms[v]];
    if kind0.CreateVm? && kind0.request.poolId.Some? {
      assert db.vms[v].pool == kind0.request.poolId;
      ReserveMeansNoActive(db.pools, db.allocations, kind0.request.poolId.value, v);
      assert ReservedIn(db, db', t, v, a);
    } else {
      assert db'.allocations == db.allocations;
      assert kind.CreateVm? ==> kind.request.assignedIp.None?;
    }
    assert QueueEffect(db, db', t, node, kind, v, a, now);
  }

  // ----- A new VM -----

  ghost predicate CreateEffect(db: Db, db': Db, t: TaskId, r: CreateVmRequest, v: VmId, a: AllocationId, now: int) {
    && t !in db.tasks && a !in db.allocations && now > db.clock
    && r.vmId == Some(v) && v !in db.vms
    && r.textsValid && ValidSizes(r) && HasCapacity(db, r)
    && db'.tasks == db.tasks[t := Task(r.nodeId, CreateVm(r), Pending, now)]
    && db'.vms == db.vms[v := NewVmRow(r, t)]
    && db'.nodes == db.nodes && db'.pools == db.pools && db'.clock == now
    && (|| (r.poolId.None? && r.assignedIp.None? && db'.allocations == db.allocations)
        || (r.poolId.Some? && ReservedIn(db, db', t, v, a)))
  }

  lemma CreateHasEffect(db: Db, now: int, t: TaskId, a: AllocationId, newVm: VmId,
                        request: CreateVmRequest, plan: PlanLookup, imageEnabled: bool)
    returns (r: CreateVmRequest, v: VmId)
    requires now > db.clock && t !in db.tasks && a !in db.allocations
    requires CreateVmTask(db, now, t, a, newVm, request, plan, imageEnabled).Some?
    ensures CreateEffect(db, CreateVmTask(db, now, t, a, newVm, request, plan, imageEnabled).value, t, r, v, a, now)
  {
    hide ValidNetwork, AcceptsTask, Reserve, Committed;
    var r0 := NormalizedRequest(request, newVm, plan).value;
    r := ReserveFor(db, r0, a, t).value.0;
    v := r0.vmId.value;
    if r0.poolId.Some? {
      ReserveMeansNoActive(db.pools, db.allocations, r0.poolId.value, v);
    }
    var db' := CreateVmTask(db, now, t, a, newVm, request, plan, imageEnabled).value;
    assert CreateEffect(db, db', t, r, v, a, now);
  }

  lemma CreateTasks(db: Db, db': Db, t: TaskId, r: CreateVmRequest, v: VmId, a: AllocationId, now: int)
    requires Inv(db) && CreateEffect(db, db', t, r, v, a, now)
    ensures forall u | u in db'.tasks :: TaskOk(db', u)
  {
    hide Inv, ReservedIn;
    forall u | u in db'.tasks ensures TaskOk(db', u) {
      if u != t {
        TaskFacts(db, u);
      }
    }
  }

  lemma CreateVms(db: Db, db': Db, t: TaskId, r: CreateVmRequest, v: VmId, a: AllocationId, now: int)
    requires Inv(db) && CreateEffect(db, db', t, r, v, a, now)
    ensures forall w | w in db'.vms :: VmOk(db', w)
  {
    hide Inv, Reserve;
    forall w | w in db'.vms ensures VmOk(db', w) {
      if w != v {
        VmFacts(db, w);
        var vm := db.vms[w];
        if vm.assignedIp.Some? {
          var b :| b in db.allocations && Owns(db.allocations[b], w, vm.pool.value, vm.assignedIp.value);
          assert Owns(db'.allocations[b], w, vm.pool.value, vm.assignedIp.value);
        }
      } else if r.poolId.Some? {
        assert Owns(db'.allocations[a], v, r.poolId.value, r.assignedIp.value);
      }
    }
  }

  lemma CreateAllocations(db: Db, db': Db, t: TaskId, r: CreateVmRequest, v: VmId, a: AllocationId, now: int)
    requires Inv(db) && CreateEffect(db, db', t, r, v, a, now)
    ensures forall b | b in db'.allocations :: AllocationOk(db', b)
    ensures AllocationsOk(db'.pools, db'.allocations)
  {
    hide PoolOk, Allocatable, Mirrors, TaskOk, VmOk, QueueOk, Reserve, AllocationsOk;
    if r.poolId.Some? {
      InsertKeepsIndexes(db.pools, db.allocations, a, r.poolId.value, v, t);
    }
    forall b | b in db'.allocations ensures AllocationOk(db', b) {
      if b in db.allocations {
        assert AllocationOk(db, b);
      }
    }
  }

  lemma CreateInv(db: Db, db': Db, t: TaskId, r: CreateVmRequest, v: VmId, a: AllocationId, now: int)
    requires Inv(db) && CreateEffect(db, db', t, r, v, a, now)
    ensures Inv(db')
  {
    hide VmOk, AllocationOk, AllocationsOk, PoolOk, ReservedIn, MatchesVm, QueueOk;
    CreateTasks(db, db', t, r, v, a, now);
    CreateVms(db, db', t, r, v, a, now);
    CreateAllocations(db, db', t, r, v, a, now);
    forall u | u in db.tasks ensures db.tasks[u].createdAt < now {
      assert TaskOk(db, u);
    }
    NewTaskKeepsQueue(db, db'.tasks, t, r.nodeId, CreateVm(r), now);
    QueueFrame(db.(tasks := db'.tasks), db');
  }

  // ----- Claims, pools, nodes -----

  /** Claiming changes one status, from pending to assigned, on the oldest pending task of the node. */
  lemma PollInv(db: Db, now: int, node: NodeId)
    requires Inv(db) && now > db.clock
    ensures Inv(PollTask(db, now, node).0)
  {
    var (db', picked) := PollTask(db, now, node);
    ClockInv(db, now);
    if picked.Some? {
      var t := picked.value;
      assert IsNextForNode(db, node, t);
      ClaimInv(db.(clock := now), node, t);
    }
  }

  lemma ClaimInv(db: Db, node: NodeId, t: TaskId)
    requires Inv(db) && t in db.tasks && IsNextForNode(db, node, t)
    ensures Inv(db.(tasks := db.tasks[t := db.tasks[t].(status := Assigned)]))
  {
    hide PoolOk, AllocationsOk, Inv, QueueOk, IsNextForNode;
    NextIsPending(db, node, t);
    var db' := db.(tasks := db.tasks[t := db.tasks[t].(status := Assigned)]);
    InvParts(db);
    forall u | u in db'.tasks ensures TaskOk(db', u) {
      TaskFacts(db, u);
    }
    forall v | v in db'.vms ensures VmOk(db', v) {
      VmFacts(db, v);
    }
    forall a | a in db'.allocations ensures AllocationOk(db', a) {
      assert AllocationOk(db, a);
    }
    ClaimKeepsQueue(db, node, t);
    InvFromParts(db');
  }

  lemma NextIsPending(db: Db, node: NodeId, t: TaskId)
    requires IsNextForNode(db, node, t)
    ensures t in db.tasks && db.tasks[t].status == Pending && db.tasks[t].node == node
  {
  }

  lemma InvParts(db: Db)
    requires Inv(db)
    ensures forall p | p in db.pools :: PoolOk(db.pools[p])
    ensures forall a | a in db.allocations :: AllocationOk(db, a)
    ensures AllocationsOk(db.pools, db.allocations)
    ensures QueueOk(db)
  {
  }

  lemma InvFromParts(db: Db)
    requires forall p | p in db.pools :: PoolOk(db.pools[p])
    requires forall t | t in db.tasks :: TaskOk(db, t)
    requires forall v | v in db.vms :: VmOk(db, v)
    requires forall a | a in db.allocations :: AllocationOk(db, a)
    requires AllocationsOk(db.pools, db.allocations)
    requires QueueOk(db)
    ensures Inv(db)
  {
  }

  lemma ClaimKeepsQueue(db: Db, node: NodeId, t: TaskId)
    requires QueueOk(db) && IsNextForNode(db, node, t)
    ensures QueueOk(db.(tasks := db.tasks[t := db.tasks[t].(status := Assigned)]))
  {
    var tasks := db.tasks[t := db.tasks[t].(status := Assigned)];
    forall c, u | c in tasks && u in tasks && tasks[c].node == tasks[u].node
                  && Claimed(tasks[c].status) && tasks[u].status == Pending
      ensures tasks[c].createdAt < tasks[u].createdAt
    {
      assert u != t;
      if c == t {
        assert db.tasks[t].createdAt <= db.tasks[u].createdAt;
      }
    }
  }

  lemma NodeInv(db: Db, now: int, node: NodeId, row: NodeRow)
    requires Inv(db) && now > db.clock
    ensures Inv(WriteNode(db, now, node, row))
  {
    ClockInv(db, now);
    NodesFrame(db.(clock := now), db.nodes[node := row]);
  }

  lemma NodesFrame(db: Db, nodes: map<NodeId, NodeRow>)
    requires Inv(db)
    ensures Inv(db.(nodes := nodes))
  {
    hide PoolOk, AllocationsOk, QueueOk, Inv;
    InvParts(db);
    var db' := db.(nodes := nodes);
    forall u | u in db'.tasks ensures TaskOk(db', u) {
      TaskFacts(db, u);
    }
    forall v | v in db'.vms ensures VmOk(db', v) {
      VmFacts(db, v);
    }
    forall a | a in db'.allocations ensures AllocationOk(db', a) {
      assert AllocationOk(db, a);
    }
    QueueFrame(db, db');
    InvFromParts(db');
  }

  lemma PoolInv(db: Db, now: int, pool: PoolId, cidr: string, gateway: string, nameOk: bool)
    requires Inv(db) && now > db.clock && CreatePool(db, now, pool, cidr, gateway, nameOk).Some?
    ensures Inv(CreatePool(db, now, pool, cidr, gateway, nameOk).value)
  {
    hide PoolOk, AllocationsOk, QueueOk, Inv, NewPool;
    NewPoolIsOk(cidr, gateway);
    ClockInv(db, now);
    var db0 := db.(clock := now);
    InvParts(db0);
    var db' := CreatePool(db, now, pool, cidr, gateway, nameOk).value;
    forall u | u in db'.tasks ensures TaskOk(db', u) {
      TaskFacts(db0, u);
    }
    forall v | v in db'.vms ensures VmOk(db', v) {
      VmFacts(db0, v);
    }
    forall a | a in db'.allocations ensures AllocationOk(db', a) {
      assert AllocationOk(db0, a);
    }
    QueueFrame(db0, db');
    MorePools(db.pools, db'.pools, db.allocations);
    InvFromParts(db');
  }

  lemma MorePools(pools: map<PoolId, Pool>, pools': map<PoolId, Pool>, allocs: Allocations)
    requires AllocationsOk(pools, allocs)
    requires forall p | p in pools :: p in pools' && pools'[p] == pools[p]
    ensures AllocationsOk(pools', allocs)
  {
    hide PoolOk, Allocatable;
  }

  // ----- Every step, every run -----

  ghost function FreshAllocation(allocs: Allocations): (a: AllocationId)
    ensures a !in allocs
  {
    FreshId(allocs.Keys);
    var a: AllocationId :| a !in allocs;
    a
  }

  lemma {:induction false} FreshId(ids: set<nat>)
    ensures exists a: nat :: a !in ids
  {
    var bound := Above(ids);
    assert bound !in ids;
  }

  ghost function Above(ids: set<nat>): (bound: nat)
    ensures forall i | i in ids :: i < bound
  {
    if ids == {} then 0
    else
      var i :| i in ids;
      var rest := Above(ids - {i});
      assert forall j | j in ids && j != i :: j in ids - {i};
      if rest <= i then i + 1 else rest
  }

  lemma SettleKeepsClock(db: Db, t: TaskId, status: TaskStatus, now: int)
    requires t in db.tasks && Settled(db, t, status, now).Some?
    ensures Settled(db, t, status, now).value.clock == db.clock
  {
  }

  /** The ways in which one request can change the tables. */
  datatype Effect =
    | Idle
    | Claims(t: TaskId)
    | Settles(t: TaskId, v: VmId, status: TaskStatus)
    | Queues(t: TaskId, node: NodeId, kind: TaskKind, v: VmId, a: AllocationId)
    | Creates(t: TaskId, request: CreateVmRequest, v: VmId, a: AllocationId)

  ghost predicate HasEffect(db: Db, db': Db, now: int, e: Effect) {
    match e
    case Idle => db'.tasks == db.tasks && db'.vms == db.vms && db'.allocations == db.allocations
    case Claims(t) =>
      && t in db.tasks && IsNextForNode(db, db.tasks[t].node, t)
      && db' == db.(tasks := db.tasks[t := db.tasks[t].(status := Assigned)], clock := now)
    case Settles(t, v, status) =>
      && t in db.tasks && StatusChange(db.tasks[t].status, status)
      && SettleEffect(db, db'.(clock := db.clock), t, v, status, now)
      && db'.clock == now
    case Queues(t, node, kind, v, a) => QueueEffect(db, db', t, node, kind, v, a, now)
    case Creates(t, r, v, a) => CreateEffect(db, db', t, r, v, a, now)
  }

  /** Which effect a committed request has; a refused one has none. */
  lemma StepEffect(db: Db, s: Step) returns (e: Effect)
    requires Inv(db) && Fair(db, s)
    ensures HasEffect(db, After(db, s), s.now, e)
    ensures Commits(db, s).None? ==> e == Idle
    ensures s.CreateVmStep? && Commits(db, s).Some? ==> e.Creates? && e.t == s.task
    ensures s.ActionStep? && Commits(db, s).Some? ==>
              e.Queues? && e.t == s.task && e.node == s.node && e.v == s.vm && !e.kind.CreateVm?
    ensures s.RetryStep? && Commits(db, s).Some? ==>
              e.Queues? && e.t == s.task && s.source in db.tasks
              && (e.kind.CreateVm? <==> db.tasks[s.source].kind.CreateVm?)
              && VmOf(db.tasks[s.source].kind) == Some(e.v)
    ensures s.CancelStep? && Commits(db, s).Some? ==> e.Settles? && e.t == s.target && e.status == Canceled
    ensures s.ReportStep? && Commits(db, s).Some? ==> e.Settles? && e.t == s.target && e.status == s.status
    ensures s.PollStep? ==> e == (var r := PollTask(db, s.now, s.node).1; if r.Some? then Claims(r.value) else Idle)
    ensures s.PoolStep? || s.NodeStep? ==> e == Idle
  {
    hide Inv, CreateVmTask, ActionTask, RetryTask, CancelTask, ReportStatus, CreatePool, QueueEffect, CreateEffect,
      SettleEffect;
    e := Idle;
    if Commits(db, s).Some? {
      match s
      case CreateVmStep(now, t, a, newVm, r, plan, image) =>
        e := CreateStepEffect(db, now, t, a, newVm, r, plan, image);
      case ActionStep(now, t, node, vm, action, image, enabled) =>
        e := ActionStepEffect(db, now, t, node, vm, action, image, enabled);
      case RetryStep(now, t, a, source, image) =>
        e := RetryStepEffect(db, now, t, a, source, image);
      case CancelStep(now, t) =>
        e := CancelStepEffect(db, now, t);
      case PollStep(now, node) =>
        e := PollStepEffect(db, now, node);
      case ReportStep(now, t, node, status, ok) =>
        e := ReportStepEffect(db, now, t, node, status, ok);
      case PoolStep(now, pool, cidr, gateway, nameOk) =>
        PoolStepEffect(db, now, pool, cidr, gateway, nameOk);
      case NodeStep(now, node, row) =>
    }
  }

  lemma CreateStepEffect(db: Db, now: int, t: TaskId, a: AllocationId, newVm: VmId,
                         request: CreateVmRequest, plan: PlanLookup, imageEnabled: bool) returns (e: Effect)
    requires now > db.clock && t !in db.tasks && a !in db.allocations
    requires CreateVmTask(db, now, t, a, newVm, request, plan, imageEnabled).Some?
    ensures e.Creates? && e.t == t
    ensures HasEffect(db, CreateVmTask(db, now, t, a, newVm, request, plan, imageEnabled).value, now, e)
  {
    hide CreateVmTask, CreateEffect;
    var r, v := CreateHasEffect(db, now, t, a, newVm, request, plan, imageEnabled);
    e := Creates(t, r, v, a);
  }

  lemma ActionStepEffect(db: Db, now: int, t: TaskId, node: NodeId, vm: VmId, action: VmAction,
                         image: Option<string>, enabled: bool) returns (e: Effect)
    requires Inv(db) && now > db.clock && t !in db.tasks
    requires ActionTask(db, now, t, node, vm, action, image, enabled).Some?
    ensures e.Queues? && e.t == t && e.node == node && e.v == vm && !e.kind.CreateVm?
    ensures HasEffect(db, ActionTask(db, now, t, node, vm, action, image, enabled).value, now, e)
  {
    hide Inv, ActionTask, QueueEffect;
    var a := FreshAllocation(db.allocations);
    var kind := ActionHasEffect(db, now, t, node, vm, action, image, enabled, a);
    e := Queues(t, node, kind, vm, a);
  }

  lemma RetryStepEffect(db: Db, now: int, t: TaskId, a: AllocationId, source: TaskId, enabled: bool) returns (e: Effect)
    requires Inv(db) && now > db.clock && t !in db.tasks && a !in db.allocations
    requires RetryTask(db, now, t, a, source, enabled).Some?
    ensures e.Queues? && e.t == t && source in db.tasks
    ensures e.kind.CreateVm? <==> db.tasks[source].kind.CreateVm?
    ensures VmOf(db.tasks[source].kind) == Some(e.v)
    ensures HasEffect(db, RetryTask(db, now, t, a, source, enabled).value, now, e)
  {
    hide Inv, QueueEffect, RetryTask;
    var kind, v := RetryHasEffect(db, now, t, a, source, enabled);
    e := Queues(t, db.tasks[source].node, kind, v, a);
  }

  lemma SettleStepEffect(db: Db, t: TaskId, status: TaskStatus, now: int) returns (e: Effect)
    requires Inv(db) && t in db.tasks && StatusChange(db.tasks[t].status, status)
    ensures Settled(db, t, status, now).Some?
    ensures e.Settles? && e.t == t && e.status == status
    ensures HasEffect(db, Settled(db, t, status, now).value.(clock := now), now, e)
  {
    SettleHasEffect(db, t, status, now);
    SettleKeepsClock(db, t, status, now);
    hide Inv, Settled, SettleEffect;
    e := Settles(t, VmOf(db.tasks[t].kind).value, status);
    var db' := Settled(db, t, status, now).value;
    assert db' == db'.(clock := now).(clock := db.clock);
  }

  lemma CancelStepEffect(db: Db, now: int, t: TaskId) returns (e: Effect)
    requires Inv(db) && CancelTask(db, now, t).Some?
    ensures e.Settles? && e.t == t && e.status == Canceled
    ensures HasEffect(db, CancelTask(db, now, t).value, now, e)
  {
    hide Inv, ApplyTaskStatus;
    e := SettleStepEffect(db, t, Canceled, now);
  }

  lemma ReportStepEffect(db: Db, now: int, t: TaskId, node: NodeId, status: TaskStatus, ok: bool) returns (e: Effect)
    requires Inv(db) && ReportStatus(db, now, t, node, status, ok).Some?
    ensures e.Settles? && e.t == t && e.status == status
    ensures HasEffect(db, ReportStatus(db, now, t, node, status, ok).value, now, e)
  {
    hide Inv, ApplyTaskStatus;
    e := SettleStepEffect(db, t, status, now);
  }

  lemma PollStepEffect(db: Db, now: int, node: NodeId) returns (e: Effect)
    ensures e == (var r := PollTask(db, now, node).1; if r.Some? then Claims(r.value) else Idle)
    ensures HasEffect(db, PollTask(db, now, node).0, now, e)
  {
    var (db', picked) := PollTask(db, now, node);
    e := if picked.Some? then Claims(picked.value) else Idle;
    if picked.Some? {
      assert IsNextForNode(db, node, picked.value);
    }
  }

  lemma PoolStepEffect(db: Db, now: int, pool: PoolId, cidr: string, gateway: string, nameOk: bool)
    requires CreatePool(db, now, pool, cidr, gateway, nameOk).Some?
    ensures HasEffect(db, CreatePool(db, now, pool, cidr, gateway, nameOk).value, now, Idle)
  {
  }

  lemma EffectInv(db: Db, db': Db, now: int, e: Effect)
    requires Inv(db) && now > db.clock && !e.Idle? && HasEffect(db, db', now, e)
    ensures Inv(db')
  {
    hide Inv, SettleEffect, QueueEffect, CreateEffect;
    match e
    case Claims(t) =>
      ClockInv(db, now);
      assert IsNextForNode(db.(clock := now), db.tasks[t].node, t);
      ClaimInv(db.(clock := now), db.tasks[t].node, t);
    case Settles(t, v, status) =>
      SettledInv(db, db'.(clock := db.clock), t, v, status, now);
      ClockInv(db'.(clock := db.clock), now);
      assert db' == db'.(clock := db.clock).(clock := now);
    case Queues(t, node, kind, v, a) => QueueInv(db, db', t, node, kind, v, a, now);
    case Creates(t, r, v, a) => CreateInv(db, db', t, r, v, a, now);
  }

  /** Every handler keeps the invariant, whatever it is sent. */
  lemma StepInv(db: Db, s: Step)
    requires Inv(db) && Fair(db, s)
    ensures Inv(After(db, s))
  {
    hide Inv, HasEffect, CreateVmTask, ActionTask, RetryTask, CancelTask, ReportStatus, PollTask, CreatePool, WriteNode;
    var e := StepEffect(db, s);
    if !e.Idle? {
      EffectInv(db, After(db, s), s.now, e);
    } else if s.PoolStep? && Commits(db, s).Some? {
      PoolInv(db, s.now, s.pool, s.cidr, s.gateway, s.nameOk);
    } else if s.NodeStep? {
      NodeInv(db, s.now, s.node, s.row);
    } else if s.PollStep? {
      PollInv(db, s.now, s.node);
    }
  }

  /** The invariant holds in every database any run of requests can reach. */
  lemma {:induction false} RunInv(db: Db, run: seq<Step>)
    requires Inv(db) && FairRun(db, run)
    ensures Inv(AfterRun(db, run))
    decreases |run|
  {
    if run != [] {
      StepInv(db, run[0]);
      RunInv(After(db, run[0]), run[1..]);
    }
  }

  /** A run and one more request. */
  lemma {:induction false} RunSnoc(db: Db, run: seq<Step>, s: Step)
    ensures FairRun(db, run + [s]) <==> FairRun(db, run) && Fair(AfterRun(db, run), s)
    ensures AfterRun(db, run + [s]) == After(AfterRun(db, run), s)
    decreases |run|
  {
    hide Commits, Fair, After;
    if run == [] {
      assert run + [s] == [s] && [s][1..] == [];
      assert AfterRun(After(db, s), []) == After(db, s);
    } else {
      assert (run + [s])[0] == run[0] && (run + [s])[1..] == run[1..] + [s];
      RunSnoc(After(db, run[0]), run[1..], s);
    }
  }
}
