/** What the invariant means to an operator, stated for every database that some run of requests reaches. */
module Guarantees {
  import opened Wrappers
  import opened Ipv4
  import opened Tasks
  import opened Vms
  import opened Ipam
  import opened Nodes
  import opened Sums
  import opened Database
  import opened Invariants
  import Cidr

  ghost predicate Reachable(db: Db) {
    exists run :: FairRun(Empty(), run) && AfterRun(Empty(), run) == db
  }

  lemma ReachableInv(db: Db)
    requires Reachable(db)
    ensures Inv(db)
  {
    hide Inv;
    var run :| FairRun(Empty(), run) && AfterRun(Empty(), run) == db;
    EmptyInv();
    RunInv(Empty(), run);
  }

  // ----- One task in flight -----

  /** Two active tasks of one VM are the same task, and the VM row points at it. */
  lemma OneTaskInFlight(db: Db, t: TaskId, u: TaskId)
    requires Reachable(db) && t in db.tasks && u in db.tasks
    requires IsActive(db.tasks[t].status) && IsActive(db.tasks[u].status)
    requires VmOf(db.tasks[t].kind) == VmOf(db.tasks[u].kind)
    ensures t == u
    ensures VmOf(db.tasks[t].kind).Some? && VmOf(db.tasks[t].kind).value in db.vms
    ensures db.vms[VmOf(db.tasks[t].kind).value].lastTask == Some(t)
  {
    hide Inv;
    ReachableInv(db);
    TaskFacts(db, t);
    TaskFacts(db, u);
  }

  /** A report or a cancellation never moves a VM to another task, although the update writes `last_task_id`. */
  lemma SettlingKeepsLastTask(db: Db, s: Step, v: VmId)
    requires Reachable(db) && Fair(db, s) && (s.ReportStep? || s.CancelStep?) && v in db.vms
    ensures v in After(db, s).vms && After(db, s).vms[v].lastTask == db.vms[v].lastTask
  {
    hide Inv, Commits;
    ReachableInv(db);
    var e := StepEffect(db, s);
  }

  // ----- The VM status mirrors the last task -----

  predicate Creating(kind: TaskKind) { kind.CreateVm? || kind.ReinstallVm? }

  lemma StatusMirrorsLastTask(db: Db, v: VmId)
    requires Reachable(db) && v in db.vms
    ensures db.vms[v].lastTask.Some? && db.vms[v].lastTask.value in db.tasks
    ensures var vm, last := db.vms[v], db.tasks[db.vms[v].lastTask.value];
            && VmOf(last.kind) == Some(v)
            && (vm.status == Provisioning <==> Creating(last.kind) && IsActive(last.status))
            && (vm.status == Deleting <==> last.kind.DeleteVm? && IsActive(last.status))
            && (vm.status == Deleted <==> last.kind.DeleteVm? && last.status == Succeeded)
            && (vm.deletedAt.Some? <==> vm.status == Deleted)
            && (Creating(last.kind) && last.status == Succeeded ==> vm.status == Up)
            && ((Creating(last.kind) || last.kind.DeleteVm?) && last.status in {Failed, Canceled}
                ==> vm.status == Error)
            && (last.kind.StartVm? ==>
                  if last.status == Succeeded then vm.status == Up else vm.status in {Stopped, Error})
            && (last.kind.StopVm? ==> vm.status == if last.status == Succeeded then Stopped else Up)
            && (last.kind.RebootVm? ==> vm.status == Up)
  {
    hide Inv;
    ReachableInv(db);
    VmFacts(db, v);
  }

  lemma DeletedStaysOneStep(db: Db, s: Step, v: VmId)
    requires Inv(db) && Fair(db, s) && v in db.vms && db.vms[v].status == Deleted
    ensures v in After(db, s).vms && After(db, s).vms[v] == db.vms[v]
  {
    hide Inv, Commits;
    var e := StepEffect(db, s);
    if e.Settles? {
      TaskFacts(db, e.t);
      StatusChangeFromActive(db.tasks[e.t].status, e.status);
    }
  }

  /** Deleted is final: whatever requests follow, the row of a deleted VM never changes again. */
  lemma {:induction false} DeletedForever(db: Db, run: seq<Step>, v: VmId)
    requires Inv(db) && FairRun(db, run) && v in db.vms && db.vms[v].status == Deleted
    ensures v in AfterRun(db, run).vms && AfterRun(db, run).vms[v] == db.vms[v]
    decreases |run|
  {
    hide Inv, After;
    if run != [] {
      DeletedStaysOneStep(db, run[0], v);
      StepInv(db, run[0]);
      DeletedForever(After(db, run[0]), run[1..], v);
    }
  }

  // ----- Addresses -----

  /** A VM shows an address exactly when it has one active allocation, of that address, in its own pool. */
  lemma AddressIsOwned(db: Db, v: VmId, ip: Ip)
    requires Reachable(db) && v in db.vms
    ensures db.vms[v].assignedIp == Some(ip) <==>
            exists a :: ActiveFor(db.allocations, v) == {a} && db.allocations[a].ip == ip
                        && db.vms[v].pool == Some(db.allocations[a].pool)
    ensures db.vms[v].assignedIp == None <==> ActiveFor(db.allocations, v) == {}
  {
    hide Inv, PoolOk, Allocatable, Mirrors;
    ReachableInv(db);
    VmFacts(db, v);
    InvParts(db);
    var vm := db.vms[v];
    forall a | a in ActiveFor(db.allocations, v)
      ensures ActiveFor(db.allocations, v) == {a} && vm.assignedIp == Some(db.allocations[a].ip)
      ensures vm.pool == Some(db.allocations[a].pool)
    {
      assert AllocationOk(db, a);
    }
    if vm.assignedIp.Some? {
      var a :| a in db.allocations && Owns(db.allocations[a], v, vm.pool.value, vm.assignedIp.value);
      assert a in ActiveFor(db.allocations, v);
    }
  }

  lemma NoSharedAddress(db: Db, v: VmId, w: VmId)
    requires Reachable(db) && v in db.vms && w in db.vms
    requires db.vms[v].assignedIp.Some? && db.vms[v].assignedIp == db.vms[w].assignedIp
    requires db.vms[v].pool == db.vms[w].pool
    ensures v == w
  {
    hide Inv, PoolOk, Allocatable, Mirrors;
    ReachableInv(db);
    VmFacts(db, v);
    VmFacts(db, w);
    InvParts(db);
    var vm, wm := db.vms[v], db.vms[w];
    var a :| a in db.allocations && Owns(db.allocations[a], v, vm.pool.value, vm.assignedIp.value);
    var b :| b in db.allocations && Owns(db.allocations[b], w, wm.pool.value, wm.assignedIp.value);
    assert a == b;
  }

  ghost function Holders(db: Db, p: PoolId): set<VmId> {
    set v | v in db.vms && db.vms[v].pool == Some(p) && db.vms[v].assignedIp.Some?
  }

  /** The active rows of a pool are as many as its VMs with an address, and never more than it has hosts to give. */
  lemma PoolCountsAgree(db: Db, p: PoolId)
    requires Inv(db) && p in db.pools
    ensures |ActiveIn(db.allocations, p)| == |Holders(db, p)|
    ensures PoolOk(db.pools[p])
    ensures 0 <= |Holders(db, p)| <= Cidr.Size(BlockOf(db.pools[p]).prefix) - 3
  {
    hide Inv, PoolOk, Allocatable, Mirrors;
    InvParts(db);
    var rows, f := ActiveIn(db.allocations, p), map a | a in db.allocations :: db.allocations[a].vm;
    forall a | a in rows ensures f[a] in Holders(db, p) {
      assert AllocationOk(db, a);
    }
    forall v | v in Holders(db, p) ensures exists a :: a in rows && f[a] == v {
      VmFacts(db, v);
      var vm := db.vms[v];
      var a :| a in db.allocations && Owns(db.allocations[a], v, vm.pool.value, vm.assignedIp.value);
      assert a in rows && f[a] == v;
    }
    CardinalityOfImage(rows, f, Holders(db, p));
    PoolCapacityIsExact(db.pools, db.allocations, p, FreshVm(db));
  }

  ghost function FreshVm(db: Db): (v: VmId)
    requires Inv(db)
    ensures v !in db.vms && !HasActive(db.allocations, v)
  {
    FreshId(db.vms.Keys);
    var v: VmId :| v !in db.vms.Keys;
    NoRowNoAddress(db, v);
    v
  }

  lemma NoRowNoAddress(db: Db, v: VmId)
    requires Inv(db) && v !in db.vms
    ensures !HasActive(db.allocations, v)
  {
    hide Inv;
    InvParts(db);
    forall a | a in db.allocations ensures !(db.allocations[a].Active() && db.allocations[a].vm == v) {
      assert AllocationOk(db, a);
    }
  }

  // ----- Guards never fire; no VM is wedged -----

  // The acceptance conditions hold of every database that satisfies the invariant, so of every reachable one.

  /** A cancellation is accepted exactly for a pending or assigned task: no row-count guard interferes. */
  lemma CancelAcceptedIff(db: Db, now: int, t: TaskId)
    requires Inv(db)
    ensures CancelTask(db, now, t).Some? <==>
            t in db.tasks && (db.tasks[t].status == Pending || db.tasks[t].status == Assigned)
  {
    hide Inv, ApplyTaskStatus;
    if t in db.tasks && AdminMayCancel(db.tasks[t].status) {
      var e := SettleStepEffect(db, t, Canceled, now);
    }
  }

  /**
   A status report is accepted exactly from the task's own agent: that an assigned task is running, that a running
   one succeeded, and that an assigned or running one failed or was canceled.
   */
  lemma ReportAcceptedIff(db: Db, now: int, t: TaskId, node: NodeId, status: TaskStatus, ok: bool)
    requires Inv(db)
    ensures ReportStatus(db, now, t, node, status, ok).Some? <==>
            && t in db.tasks && db.tasks[t].node == node && (status == Failed ==> ok)
            && var before := db.tasks[t].status;
               || (before == Assigned && status == Running)
               || (before == Running && status == Succeeded)
               || ((before == Assigned || before == Running) && (status == Failed || status == Canceled))
  {
    hide Inv, ApplyTaskStatus;
    if t in db.tasks && ValidAgentTransition(db.tasks[t].status, status) {
      var e := SettleStepEffect(db, t, status, now);
    }
  }

  /** The guards behind the task row of an allowed action let it pass. */
  lemma ActionPassesGuards(db: Db, now: int, t: TaskId, v: VmId, kind: TaskKind)
    requires t in db.tasks && db.tasks[t].kind == kind && db.tasks[t].status == Pending
    requires VmOnNode(db, v, db.tasks[t].node) && db.vms[v].status != Deleted && VmOf(kind) == Some(v)
    ensures RecordActionCreated(db, t).Some?
    ensures ApplyTaskStatus(db, t, now).Some? && ApplyTaskStatus(RecordActionCreated(db, t).value, t, now).Some?
  {
    hide NextImage, Release;
  }

  /** Every task of the VM is over. */
  ghost predicate AllOver(db: Db, v: VmId) {
    forall u | u in db.tasks && VmOf(db.tasks[u].kind) == Some(v) ::
      db.tasks[u].status == Succeeded || db.tasks[u].status == Failed || db.tasks[u].status == Canceled
  }

  lemma AllOverIff(db: Db, v: VmId)
    requires Inv(db) && v in db.vms
    ensures AllOver(db, v) <==> !HasActiveTask(LifecycleOf(db, v).lastTaskStatus)
  {
    hide Inv;
    VmFacts(db, v);
    if !HasActiveTask(LifecycleOf(db, v).lastTaskStatus) {
      forall u | u in db.tasks && VmOf(db.tasks[u].kind) == Some(v)
        ensures !IsActive(db.tasks[u].status)
      {
        NoTaskInFlight(db, v, u);
      }
    }
  }

  /**
   An action is accepted exactly when the VM is settled and all its tasks are over, the action fits (a stop or a
   reboot needs a VM that is up, a start one that is not) and the node takes tasks.
   */
  lemma ActionAcceptedIff(db: Db, now: int, t: TaskId, node: NodeId, v: VmId, action: VmAction,
                          image: Option<string>, enabled: bool)
    requires Inv(db) && t !in db.tasks
    ensures ActionTask(db, now, t, node, v, action, image, enabled).Some? <==>
            && v in db.vms && db.vms[v].node == node && AllOver(db, v)
            && (db.vms[v].status == Up || db.vms[v].status == Stopped || db.vms[v].status == Error)
            && (action == Stop || action == Reboot ==> db.vms[v].status == Up)
            && (action == Start ==> db.vms[v].status != Up)
            && (action == Reinstall ==> enabled)
            && node in db.nodes && db.nodes[node].registered && db.nodes[node].schedulingEnabled
  {
    hide Inv, AllOver;
    if VmOnNode(db, v, node) {
      AllOverIff(db, v);
    }
    if VmOnNode(db, v, node) && ActionAllowed(action, LifecycleOf(db, v)) {
      assert db.vms[v].status != Deleted;
      hide ActionAllowed, LifecycleOf, RecordActionCreated, ApplyTaskStatus;
      var row := db.vms[v];
      var kind := ActionKind(action, v, if image.Some? then image.value else row.image, row.diskGb);
      var db1 := CreateTask(db, t, node, kind, now);
      if db1.Some? {
        ActionPassesGuards(db1.value, now, t, v, kind);
      }
    }
  }

  ghost predicate PoolHasRoom(db: Db, pool: Option<PoolId>) {
    pool.Some? ==>
      && pool.value in db.pools && PoolParses(db.pools[pool.value])
      && |ActiveIn(db.allocations, pool.value)| < Cidr.Size(BlockOf(db.pools[pool.value]).prefix) - 3
  }

  /** What the reservation finds passes the validator, so the request goes on with it. */
  lemma ReservationPasses(db: Db, r: CreateVmRequest, a: AllocationId, t: TaskId)
    requires r.poolId.Some? && r.vmId.Some? && r.textsValid && ValidSizes(r)
    requires r.poolId.value in db.pools && PoolOk(db.pools[r.poolId.value])
    requires Reserve(db.pools, db.allocations, r.poolId.value, r.vmId.value).Some?
    ensures ReserveFor(db, r, a, t).Some?
  {
    hide Reserve, PoolOk, ValidSizes;
    var reserved := Reserve(db.pools, db.allocations, r.poolId.value, r.vmId.value).value;
    ReserveIsLowestFree(db.pools, db.allocations, r.poolId.value, r.vmId.value);
    AddressesDoNotMatter(db, r, WithReservation(r, reserved));
  }

  /** A reservation for a VM without an address succeeds exactly when its pool has room; what it returns is valid. */
  lemma ReserveForIff(db: Db, r: CreateVmRequest, a: AllocationId, t: TaskId)
    requires Inv(db) && r.vmId.Some? && r.textsValid && ValidSizes(r)
    ensures ReserveFor(db, r, a, t).Some?
            <==> (r.poolId.Some? ==> !HasActive(db.allocations, r.vmId.value)) && PoolHasRoom(db, r.poolId)
    ensures var x := ReserveFor(db, r, a, t); x.Some? ==> x.value.0.nodeId == r.nodeId && x.value.0.vmId == r.vmId
  {
    hide Inv, Reserve, PoolOk, ValidSizes, ValidForMvp, BlockOf, PoolParses;
    InvParts(db);
    if r.poolId.Some? && r.poolId.value in db.pools && !HasActive(db.allocations, r.vmId.value) {
      var pool, v := r.poolId.value, r.vmId.value;
      PoolOkMeans(db.pools[pool]);
      PoolCapacityIsExact(db.pools, db.allocations, pool, v);
      if Reserve(db.pools, db.allocations, pool, v).Some? {
        ReservationPasses(db, r, a, t);
      }
    } else if r.poolId.Some? && Reserve(db.pools, db.allocations, r.poolId.value, r.vmId.value).Some? {
      ReserveNeeds(db.pools, db.allocations, r.poolId.value, r.vmId.value);
    }
  }

  lemma ReserveNeeds(pools: map<PoolId, Pool>, allocs: Allocations, pool: PoolId, v: VmId)
    requires Reserve(pools, allocs, pool, v).Some?
    ensures pool in pools && !HasActive(allocs, v)
  {
  }

  /**
   A create is accepted exactly when its request is well formed, its image enabled, its node has
   capacity and takes VMs, its VM id is new and its pool has a free host. No later guard refuses it.
   */
  lemma CreateAcceptedIff(db: Db, now: int, t: TaskId, a: AllocationId, newVm: VmId,
                          request: CreateVmRequest, plan: PlanLookup, enabled: bool)
    requires Inv(db) && t !in db.tasks && a !in db.allocations
    ensures CreateVmTask(db, now, t, a, newVm, request, plan, enabled).Some? <==>
            var r := NormalizedRequest(request, newVm, plan);
            && r.Some? && r.value.textsValid && ValidSizes(r.value) && enabled && HasCapacity(db, r.value)
            && r.value.vmId.value !in db.vms && PoolHasRoom(db, r.value.poolId)
            && AcceptsTask(db.nodes[r.value.nodeId], CreateVm(r.value), now)
  {
    hide Inv, HasCapacity, ValidSizes, ReserveFor, PoolHasRoom;
    var r := NormalizedRequest(request, newVm, plan);
    if r.Some? && r.value.textsValid && ValidSizes(r.value) {
      ReserveForIff(db, r.value, a, t);
      CapacityNeedsNode(db, r.value);
      if r.value.vmId.value !in db.vms {
        NoRowNoAddress(db, r.value.vmId.value);
      }
    }
  }

  lemma CapacityNeedsNode(db: Db, r: CreateVmRequest)
    ensures HasCapacity(db, r) ==> r.nodeId in db.nodes
  {
  }

  /**
   A retry is accepted exactly when its source is failed or canceled, its image enabled, the VM may
   take it and the node accepts it; a retried create also needs capacity, a VM without an address
   and a pool with room. The row guards never refuse it.
   */
  lemma RetryAcceptedIff(db: Db, now: int, t: TaskId, a: AllocationId, source: TaskId, enabled: bool)
    requires Inv(db) && t !in db.tasks && a !in db.allocations
    ensures RetryTask(db, now, t, a, source, enabled).Some? <==>
            && source in db.tasks && db.tasks[source].status in {Failed, Canceled}
            && var kind, node := db.tasks[source].kind, db.tasks[source].node;
               && (kind.CreateVm? || kind.ReinstallVm? ==> enabled)
               && VmOf(kind).Some? && VmOf(kind).value in db.vms
               && RetryAllowed(kind, LifecycleOf(db, VmOf(kind).value))
               && node in db.nodes && AcceptsTask(db.nodes[node], kind, now)
               && (kind.CreateVm? ==>
                     && HasCapacity(db, kind.request) && PoolHasRoom(db, kind.request.poolId)
                     && db.vms[VmOf(kind).value].assignedIp.None?)
  {
    hide Inv, HasCapacity, ReserveFor, PoolHasRoom, RetryVmUpdate, Mirrors, RetryAllowed;
    if source in db.tasks {
      TaskFacts(db, source);
      var kind, v := db.tasks[source].kind, VmOf(db.tasks[source].kind).value;
      AddressIffActive(db, v);
      if RetryAllowed(kind, LifecycleOf(db, v)) {
        RetryMirrors(kind, LifecycleOf(db, v));
      }
      if kind.CreateVm? {
        ReserveForIff(db, kind.request, a, t);
        if ReserveFor(db, kind.request, a, t).Some? {
          RetryUpdateOf(kind, CreateVm(ReserveFor(db, kind.request, a, t).value.0));
        }
      }
    }
  }

  lemma AddressIffActive(db: Db, v: VmId)
    requires Inv(db) && v in db.vms
    ensures db.vms[v].assignedIp.Some? <==> HasActive(db.allocations, v)
    ensures db.vms[v].assignedIp.Some? ==> db.vms[v].pool.Some?
  {
    hide Inv, PoolOk, Mirrors;
    VmFacts(db, v);
    InvParts(db);
    if HasActive(db.allocations, v) {
      var a :| a in db.allocations && db.allocations[a].Active() && db.allocations[a].vm == v;
      assert AllocationOk(db, a);
    }
  }

  /** From every reachable state a VM in transition has an accepted request that settles it in Error. */
  lemma NoVmIsWedged(db: Db, v: VmId, now: int)
    requires Reachable(db) && v in db.vms && db.vms[v].status in {Provisioning, Deleting}
    ensures db.vms[v].lastTask.Some? && db.vms[v].lastTask.value in db.tasks
    ensures var t := db.vms[v].lastTask.value;
            var db' := if db.tasks[t].status == Running then ReportStatus(db, now, t, db.tasks[t].node, Failed, true)
                       else CancelTask(db, now, t);
            db'.Some? && v in db'.value.vms && db'.value.vms[v].status == Error
  {
    hide Inv, ApplyTaskStatus;
    StatusMirrorsLastTask(db, v);
    ReachableInv(db);
    var t := db.vms[v].lastTask.value;
    if db.tasks[t].status == Running {
      var e := ReportStepEffectFor(db, now, t);
    } else {
      CancelAcceptedIff(db, now, t);
      var e := CancelStepEffect(db, now, t);
    }
  }

  lemma ReportStepEffectFor(db: Db, now: int, t: TaskId) returns (e: Effect)
    requires Reachable(db) && t in db.tasks && db.tasks[t].status == Running
    ensures ReportStatus(db, now, t, db.tasks[t].node, Failed, true).Some?
    ensures e.Settles? && e.t == t && e.status == Failed
    ensures HasEffect(db, ReportStatus(db, now, t, db.tasks[t].node, Failed, true).value, now, e)
  {
    hide Inv, ReportStatus;
    ReachableInv(db);
    ReportAcceptedIff(db, now, t, db.tasks[t].node, Failed, true);
    e := ReportStepEffect(db, now, t, db.tasks[t].node, Failed, true);
  }

  // ----- The queue -----

  /** A poll hands out the oldest pending task, and nothing claimed before it on that node is younger. */
  lemma ClaimsAreInCreationOrder(db: Db, now: int, node: NodeId, c: TaskId)
    requires Reachable(db) && PollTask(db, now, node).1.Some?
    requires c in db.tasks && db.tasks[c].node == node && Claimed(db.tasks[c].status)
    ensures var t := PollTask(db, now, node).1.value;
            && t in db.tasks && db.tasks[t].node == node && db.tasks[t].status == Pending
            && db.tasks[c].createdAt < db.tasks[t].createdAt
            && forall u | u in db.tasks && db.tasks[u].node == node && db.tasks[u].status == Pending && u != t ::
                 db.tasks[t].createdAt < db.tasks[u].createdAt
  {
    hide Inv;
    ReachableInv(db);
    InvParts(db);
    assert IsNextForNode(db, node, PollTask(db, now, node).1.value);
  }

  /** Every pending task of a node is younger than `at`, and any that comes will be. */
  ghost predicate PendingAfter(db: Db, node: NodeId, at: int) {
    && at <= db.clock
    && forall u | u in db.tasks && db.tasks[u].node == node && db.tasks[u].status == Pending ::
          at < db.tasks[u].createdAt
  }

  lemma StepKeepsPendingAfter(db: Db, s: Step, node: NodeId, at: int)
    requires Inv(db) && Fair(db, s) && PendingAfter(db, node, at)
    ensures PendingAfter(After(db, s), node, at)
  {
    var e := StepEffect(db, s);
    var db' := After(db, s);
    ClockMovesOn(db, s);
    hide Inv, After, Fair, HasEffect, PendingAfter;
    EffectOnTasks(db, db', s.now, e);
    if e.Idle? {
      PendingAfterUpdate(db, db', 0, node, at);
    } else {
      NewTaskIsYoung(db, db', s.now, e);
      PendingAfterUpdate(db, db', e.t, node, at);
    }
  }

  lemma PendingAfterUpdate(db: Db, db': Db, t: TaskId, node: NodeId, at: int)
    requires PendingAfter(db, node, at) && db'.clock >= db.clock
    requires db'.tasks == db.tasks || (t in db'.tasks && db'.tasks == db.tasks[t := db'.tasks[t]]
                                       && (db'.tasks[t].status != Pending || db.clock < db'.tasks[t].createdAt))
    ensures PendingAfter(db', node, at)
  {
  }

  lemma ClockMovesOn(db: Db, s: Step)
    requires Fair(db, s)
    ensures After(db, s).clock == db.clock || After(db, s).clock == s.now > db.clock
  {
    hide ApplyTaskStatus, ApplyRetryCreated, RecordActionCreated, ReserveFor, ValidForMvp, ActionAllowed, RetryAllowed;
  }

  /** A changed row is a new task of this very moment, or one that is no longer pending. */
  lemma NewTaskIsYoung(db: Db, db': Db, now: int, e: Effect)
    requires HasEffect(db, db', now, e) && !e.Idle?
    ensures e.t in db'.tasks && db'.clock == now
    ensures if e.t in db.tasks then db'.tasks[e.t].status != Pending else db'.tasks[e.t].createdAt == now
  {
    hide ReservedIn, IsNextForNode, Mirrors;
  }

  lemma {:induction false} RunKeepsPendingAfter(db: Db, run: seq<Step>, node: NodeId, at: int)
    requires Inv(db) && FairRun(db, run) && PendingAfter(db, node, at)
    ensures PendingAfter(AfterRun(db, run), node, at)
    decreases |run|
  {
    hide Inv, After, PendingAfter;
    if run != [] {
      StepKeepsPendingAfter(db, run[0], node, at);
      StepInv(db, run[0]);
      RunKeepsPendingAfter(After(db, run[0]), run[1..], node, at);
    }
  }

  /** Once a poll has handed a task out, the other pending tasks of the node are younger. */
  lemma PollLeavesYounger(db: Db, now: int, node: NodeId)
    requires Inv(db) && now > db.clock && PollTask(db, now, node).1.Some?
    ensures var (db', picked) := PollTask(db, now, node);
            picked.value in db.tasks && PendingAfter(db', node, db.tasks[picked.value].createdAt)
  {
    hide Inv;
    InvParts(db);
    var t := PollTask(db, now, node).1.value;
    assert IsNextForNode(db, node, t);
    TaskFacts(db, t);
  }

  /**
   The claims of a node over any run are in the order of creation: what a later poll hands out is younger than
   what an earlier one did, whatever requests came between and whatever became of the earlier task.
   */
  lemma PollsAreInCreationOrder(db: Db, first: int, node: NodeId, run: seq<Step>, second: int)
    requires Reachable(db) && first > db.clock && PollTask(db, first, node).1.Some?
    requires FairRun(PollTask(db, first, node).0, run)
    requires PollTask(AfterRun(PollTask(db, first, node).0, run), second, node).1.Some?
    ensures var t := PollTask(db, first, node).1.value;
            var later := AfterRun(PollTask(db, first, node).0, run);
            var u := PollTask(later, second, node).1.value;
            t in db.tasks && u in later.tasks && db.tasks[t].createdAt < later.tasks[u].createdAt
  {
    ReachableInv(db);
    PollLeavesYounger(db, first, node);
    PollInv(db, first, node);
    var next := PollTask(db, first, node).0;
    var later := AfterRun(next, run);
    var at := db.tasks[PollTask(db, first, node).1.value].createdAt;
    hide Inv, AfterRun, FairRun;
    RunKeepsPendingAfter(next, run, node, at);
    assert IsNextForNode(later, node, PollTask(later, second, node).1.value);
  }

  ghost function Ranks(tasks: map<TaskId, Task>): map<TaskId, nat> {
    map t | t in tasks :: Rank(tasks[t].status)
  }

  ghost function Potential(db: Db): nat { Sum(Ranks(db.tasks)) }

  ghost function Changed(db: Db, db': Db): set<TaskId> {
    set t | t in db.tasks && t in db'.tasks && db.tasks[t].status != db'.tasks[t].status
  }

  ghost function Changes(db: Db, run: seq<Step>): nat
    decreases |run|
  {
    if run == [] then 0 else |Changed(db, After(db, run[0]))| + Changes(After(db, run[0]), run[1..])
  }

  lemma StepRank(db: Db, s: Step)
    requires Inv(db) && Fair(db, s)
    ensures |After(db, s).tasks| >= |db.tasks|
    ensures |Changed(db, After(db, s))| + Potential(After(db, s))
            <= Potential(db) + 3 * (|After(db, s).tasks| - |db.tasks|)
    ensures forall t | t in db.tasks ::
              t in After(db, s).tasks && Rank(After(db, s).tasks[t].status) <= Rank(db.tasks[t].status)
              && (After(db, s).tasks[t].status != db.tasks[t].status
                  ==> Rank(After(db, s).tasks[t].status) < Rank(db.tasks[t].status))
  {
    hide Inv, After, Sum, SettleEffect, QueueEffect, CreateEffect, IsNextForNode;
    var e := StepEffect(db, s);
    var db' := After(db, s);
    EffectOnTasks(db, db', s.now, e);
    match e {
      case Idle => assert Changed(db, db') == {};
      case Claims(t) => OneStatusChanges(db, db', t);
      case Settles(t, _, _) => OneStatusChanges(db, db', t);
      case Queues(t, _, _, _, _) => OneTaskAppears(db, db', t);
      case Creates(t, _, _, _) => OneTaskAppears(db, db', t);
    }
  }

  lemma EffectOnTasks(db: Db, db': Db, now: int, e: Effect)
    requires HasEffect(db, db', now, e)
    ensures e.Idle? ==> db'.tasks == db.tasks
    ensures !e.Idle? ==> e.t in db'.tasks && db'.tasks == db.tasks[e.t := db'.tasks[e.t]]
    ensures e.Claims? || e.Settles? ==> e.t in db.tasks && Rank(db'.tasks[e.t].status) < Rank(db.tasks[e.t].status)
    ensures e.Queues? || e.Creates? ==> e.t !in db.tasks
  {
  }

  lemma OneStatusChanges(db: Db, db': Db, t: TaskId)
    requires t in db.tasks && t in db'.tasks && db'.tasks == db.tasks[t := db'.tasks[t]]
    requires Rank(db'.tasks[t].status) < Rank(db.tasks[t].status)
    ensures |db'.tasks| == |db.tasks| && |Changed(db, db')| + Potential(db') <= Potential(db)
  {
    hide Sum;
    assert Changed(db, db') <= {t};
    SubsetSize(Changed(db, db'), {t});
    assert db'.tasks.Keys == db.tasks.Keys;
    RanksOfUpdate(db.tasks, t, db'.tasks[t]);
  }

  lemma OneTaskAppears(db: Db, db': Db, t: TaskId)
    requires t !in db.tasks && t in db'.tasks && db'.tasks == db.tasks[t := db'.tasks[t]]
    ensures |db'.tasks| == |db.tasks| + 1 && Changed(db, db') == {} && Potential(db') <= Potential(db) + 3
  {
    hide Sum;
    assert db'.tasks.Keys == db.tasks.Keys + {t};
    RanksOfUpdate(db.tasks, t, db'.tasks[t]);
    assert Changed(db, db') == {};
  }

  lemma RanksOfUpdate(tasks: map<TaskId, Task>, t: TaskId, task: Task)
    ensures Sum(Ranks(tasks[t := task]))
            == Sum(Ranks(tasks)) - (if t in tasks then Rank(tasks[t].status) else 0) + Rank(task.status)
    ensures Rank(task.status) <= 3
  {
    hide Sum;
    SumUpdate(Ranks(tasks), t, Rank(task.status));
    assert Ranks(tasks[t := task]) == Ranks(tasks)[t := Rank(task.status)];
  }

  /** In any run the number of status changes is bounded by three for each task created. */
  lemma {:induction false} ChangesAreBounded(db: Db, run: seq<Step>)
    requires Inv(db) && FairRun(db, run)
    ensures |AfterRun(db, run).tasks| >= |db.tasks|
    ensures Changes(db, run) + Potential(AfterRun(db, run))
            <= Potential(db) + 3 * (|AfterRun(db, run).tasks| - |db.tasks|)
    decreases |run|
  {
    hide Inv, After, Potential, Changed;
    if run != [] {
      StepRank(db, run[0]);
      StepInv(db, run[0]);
      ChangesAreBounded(After(db, run[0]), run[1..]);
    }
  }

  lemma ThreeChangesPerTask(run: seq<Step>)
    requires FairRun(Empty(), run)
    ensures Changes(Empty(), run) <= 3 * |AfterRun(Empty(), run).tasks|
  {
    hide Inv;
    EmptyInv();
    ChangesAreBounded(Empty(), run);
    assert Ranks(Empty().tasks) == map[];
  }

  lemma {:induction false} RanksFallOverRuns(db: Db, run: seq<Step>, t: TaskId)
    requires Inv(db) && FairRun(db, run) && t in db.tasks
    ensures t in AfterRun(db, run).tasks && Rank(AfterRun(db, run).tasks[t].status) <= Rank(db.tasks[t].status)
    ensures AfterRun(db, run).tasks[t].status != db.tasks[t].status
            ==> Rank(AfterRun(db, run).tasks[t].status) < Rank(db.tasks[t].status)
    decreases |run|
  {
    hide Inv, After, Rank, Potential, Changed;
    if run != [] {
      StepRank(db, run[0]);
      StepInv(db, run[0]);
      RanksFallOverRuns(After(db, run[0]), run[1..], t);
    }
  }

  /**
   A report whose status read and guarded update are apart in time: the read saw `current`, other
   requests ran, then the update demands that the row still has the status that was read.
   */
  function GuardedReport(db: Db, now: int, t: TaskId, node: NodeId, current: TaskStatus, status: TaskStatus,
                         ok: bool): Option<Db> {
    if !AgentMayReport(status) || !ValidAgentTransition(current, status) || (status == Failed && !ok)
       || t !in db.tasks || db.tasks[t].node != node || db.tasks[t].status != current
    then None
    else match ApplyTaskStatus(db.(tasks := db.tasks[t := db.tasks[t].(status := status)]), t, now)
      case None => None
      case Some(db1) => Some(db1.(clock := now))
  }

  /** A cancellation taken apart in the same way. */
  function GuardedCancel(db: Db, now: int, t: TaskId, current: TaskStatus): Option<Db> {
    if !AdminMayCancel(current) || t !in db.tasks || db.tasks[t].status != current then None
    else match ApplyTaskStatus(db.(tasks := db.tasks[t := db.tasks[t].(status := Canceled)]), t, now)
      case None => None
      case Some(db1) => Some(db1.(clock := now))
  }

  /** A status that is what it was before a run was never anything else within the run. */
  lemma StatusDoesNotComeBack(db: Db, before: seq<Step>, after: seq<Step>, t: TaskId)
    requires Inv(db) && FairRun(db, before) && FairRun(AfterRun(db, before), after) && t in db.tasks
    ensures var mid := AfterRun(db, before);
            var later := AfterRun(mid, after);
            && t in mid.tasks && t in later.tasks
            && (later.tasks[t].status == db.tasks[t].status ==> mid.tasks[t].status == db.tasks[t].status)
  {
    hide Inv, AfterRun, FairRun;
    RanksFallOverRuns(db, before, t);
    RunInv(db, before);
    RanksFallOverRuns(AfterRun(db, before), after, t);
  }

  /**
   Whatever runs between read and update: the guarded update is the atomic report at its own moment when the
   status is still the one read, and is refused otherwise, which is how it is defined; what needs the
   order on statuses is that a status still the one read never moved in between.
   */
  lemma GuardedReportIsAtomic(db: Db, before: seq<Step>, after: seq<Step>, now: int, t: TaskId, node: NodeId,
                              status: TaskStatus, ok: bool)
    requires Inv(db) && FairRun(db, before) && FairRun(AfterRun(db, before), after)
    requires t in db.tasks && db.tasks[t].node == node
    ensures t in AfterRun(db, before).tasks
    ensures var later := AfterRun(AfterRun(db, before), after);
            var r := GuardedReport(later, now, t, node, db.tasks[t].status, status, ok);
            && t in later.tasks
            && r == (if later.tasks[t].status == db.tasks[t].status
                     then ReportStatus(later, now, t, node, status, ok) else None)
            && (later.tasks[t].status == db.tasks[t].status
                ==> AfterRun(db, before).tasks[t].status == db.tasks[t].status)
  {
    hide Inv, ApplyTaskStatus, AfterRun, FairRun;
    StatusDoesNotComeBack(db, before, after, t);
  }

  /** The same of a cancellation: it takes effect only on a task that stayed cancelable, in one status, throughout. */
  lemma GuardedCancelIsAtomic(db: Db, before: seq<Step>, after: seq<Step>, now: int, t: TaskId)
    requires Inv(db) && FairRun(db, before) && FairRun(AfterRun(db, before), after) && t in db.tasks
    ensures t in AfterRun(db, before).tasks
    ensures var later := AfterRun(AfterRun(db, before), after);
            var r := GuardedCancel(later, now, t, db.tasks[t].status);
            && t in later.tasks
            && r == (if later.tasks[t].status == db.tasks[t].status then CancelTask(later, now, t) else None)
            && (r.Some? <==> AdminMayCancel(db.tasks[t].status) && later.tasks[t].status == db.tasks[t].status)
            && (r.Some? ==> AfterRun(db, before).tasks[t].status == db.tasks[t].status)
  {
    hide Inv, ApplyTaskStatus, AfterRun, FairRun;
    StatusDoesNotComeBack(db, before, after, t);
    var later := AfterRun(AfterRun(db, before), after);
    RunInv(db, before);
    RunInv(AfterRun(db, before), after);
    CancelAcceptedIff(later, now, t);
  }
}
