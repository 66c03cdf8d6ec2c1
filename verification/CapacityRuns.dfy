/** Committed capacity over whole runs: what admission guarantees, the one way around it, and when it matters. */
module CapacityRuns {
  import opened Wrappers
  import opened Tasks
  import opened Vms
  import Ipam
  import opened Nodes
  import opened Sums
  import opened Database
  import opened Invariants
  import opened Guarantees

  /** Node totals are BIGINT columns. */
  const I64_MAX := 0x7FFF_FFFF_FFFF_FFFF

  predicate IsRetriedCreate(db: Db, s: Step) {
    s.RetryStep? && s.source in db.tasks && db.tasks[s.source].kind.CreateVm?
  }

  /** The VMs of a node that go from Error back to a counted status between two databases. */
  ghost function ReentryWeights(vms: map<VmId, Vm>, vms': map<VmId, Vm>, node: NodeId, d: Dimension): map<VmId, nat> {
    map v | v in vms ::
      if vms[v].node == node && vms[v].status == Error && v in vms' && Counted(vms'[v].status)
      then SizeOf(vms[v], d) else 0
  }

  ghost function Reentry(vms: map<VmId, Vm>, vms': map<VmId, Vm>, node: NodeId, d: Dimension): nat {
    Sum<VmId>(ReentryWeights(vms, vms', node, d))
  }

  /** What a step re-enters, a retried create not counting since it passes admission again. */
  ghost function Reentered(db: Db, s: Step, node: NodeId, d: Dimension): nat {
    if IsRetriedCreate(db, s) then 0 else Reentry(db.vms, After(db, s).vms, node, d)
  }

  ghost function TotalReentered(db: Db, run: seq<Step>, node: NodeId, d: Dimension): nat
    decreases |run|
  {
    if run == [] then 0
    else Reentered(db, run[0], node, d) + TotalReentered(After(db, run[0]), run[1..], node, d)
  }

  /** The node keeps reporting this total. */
  predicate KeepsTotal(run: seq<Step>, node: NodeId, d: Dimension, total: nat) {
    forall i | 0 <= i < |run| && run[i].NodeStep? && run[i].node == node :: Total(run[i].row, d) == total
  }

  function WeightOf(vm: Vm, node: NodeId, d: Dimension): nat {
    if vm.node == node && Counted(vm.status) then SizeOf(vm, d) else 0
  }

  lemma CommittedOfUpdate(vms: map<VmId, Vm>, v: VmId, vm: Vm, node: NodeId, d: Dimension)
    ensures CommittedIn(vms[v := vm], node, d)
            == CommittedIn(vms, node, d) - (if v in vms then WeightOf(vms[v], node, d) else 0) + WeightOf(vm, node, d)
  {
    hide Sum;
    SumUpdate(Weights(vms, node, d), v, WeightOf(vm, node, d));
    assert Weights(vms[v := vm], node, d) == Weights(vms, node, d)[v := WeightOf(vm, node, d)];
  }

  lemma ReentryCounts(vms: map<VmId, Vm>, vms': map<VmId, Vm>, node: NodeId, d: Dimension, v: VmId)
    requires v in vms && v in vms' && SameShape(vms[v], vms'[v]) && vms[v].status !in {Deleted, Deleting}
    requires Counted(vms[v].status) || vms[v].status == Error
    ensures WeightOf(vms'[v], node, d) <= WeightOf(vms[v], node, d) + Reentry(vms, vms', node, d)
    ensures vms[v].node == node && vms[v].status == Error && Counted(vms'[v].status)
            ==> SizeOf(vms[v], d) <= Reentry(vms, vms', node, d)
  {
    hide Sum;
    var w := ReentryWeights(vms, vms', node, d);
    SumUpdate<VmId>(w, v, w[v]);
    assert w[v] <= Reentry(vms, vms', node, d);
    assert SizeOf(vms[v], d) == SizeOf(vms'[v], d);
  }

  lemma AdmittedFits(db: Db, r: CreateVmRequest, d: Dimension)
    requires HasCapacity(db, r)
    requires 0 < Total(db.nodes[r.nodeId], d) <= I64_MAX
    ensures CommittedIn(db.vms, r.nodeId, d) + Requested(r, d) <= Total(db.nodes[r.nodeId], d)
  {
    hide CommittedIn;
    match d
    case Cpu =>
    case Memory =>
    case Disk =>
  }

  /** One step: committed capacity stays within the total and `extra`, unless a VM re-enters from Error. */
  lemma StepCapacity(db: Db, s: Step, node: NodeId, d: Dimension, total: nat, extra: nat)
    requires Inv(db) && Fair(db, s)
    requires 0 < total <= I64_MAX && node in db.nodes && Total(db.nodes[node], d) == total
    requires CommittedIn(db.vms, node, d) <= total + extra
    ensures CommittedIn(After(db, s).vms, node, d) <= total + extra + Reentered(db, s, node, d)
  {
    hide Inv, After, CommittedIn, Reentry, HasCapacity, Total, SettleEffect, QueueEffect, CreateEffect, IsNextForNode;
    var e := StepEffect(db, s);
    var db' := After(db, s);
    match e {
      case Idle =>
      case Claims(t) =>
      case Settles(t, v, status) => SettledWeight(db, db', s.now, e, node, d);
      case Queues(t, n, kind, v, a) => QueuedWeight(db, db', s.now, e, node, d);
      case Creates(t, r, v, a) => CreatedWeight(db, db', s.now, e, node, d);
    }
  }

  lemma SettledWeight(db: Db, db': Db, now: int, e: Effect, node: NodeId, d: Dimension)
    requires Inv(db) && e.Settles? && HasEffect(db, db', now, e)
    ensures CommittedIn(db'.vms, node, d) <= CommittedIn(db.vms, node, d) + Reentry(db.vms, db'.vms, node, d)
  {
    hide Inv, CommittedIn, Reentry, StatusChange;
    TaskFacts(db, e.t);
    StatusChangeFromActive(db.tasks[e.t].status, e.status);
    CommittedOfUpdate(db.vms, e.v, db'.vms[e.v], node, d);
    if db.vms[e.v].status in {Provisioning, Deleting, Stopped, Up} {
      assert WeightOf(db'.vms[e.v], node, d) <= WeightOf(db.vms[e.v], node, d);
    } else {
      ReentryCounts(db.vms, db'.vms, node, d, e.v);
    }
  }

  lemma QueuedWeight(db: Db, db': Db, now: int, e: Effect, node: NodeId, d: Dimension)
    requires e.Queues? && HasEffect(db, db', now, e)
    ensures CommittedIn(db'.vms, node, d) <= CommittedIn(db.vms, node, d) + Reentry(db.vms, db'.vms, node, d)
    ensures e.kind.CreateVm? && node in db.nodes && 0 < Total(db.nodes[node], d) <= I64_MAX ==>
              CommittedIn(db'.vms, node, d) <= CommittedIn(db.vms, node, d)
              || CommittedIn(db'.vms, node, d) <= Total(db.nodes[node], d)
  {
    hide CommittedIn, Reentry, HasCapacity, Total;
    CommittedOfUpdate(db.vms, e.v, db'.vms[e.v], node, d);
    ReentryCounts(db.vms, db'.vms, node, d, e.v);
    if e.kind.CreateVm? && e.node == node && node in db.nodes && 0 < Total(db.nodes[node], d) <= I64_MAX {
      AdmittedFits(db, e.kind.request, d);
      assert SizeOf(db'.vms[e.v], d) == Requested(e.kind.request, d);
    }
  }

  lemma CreatedWeight(db: Db, db': Db, now: int, e: Effect, node: NodeId, d: Dimension)
    requires e.Creates? && HasEffect(db, db', now, e)
    requires node in db.nodes && 0 < Total(db.nodes[node], d) <= I64_MAX
    ensures CommittedIn(db'.vms, node, d) <= CommittedIn(db.vms, node, d)
            || CommittedIn(db'.vms, node, d) <= Total(db.nodes[node], d)
  {
    hide CommittedIn, HasCapacity, Total;
    CommittedOfUpdate(db.vms, e.v, db'.vms[e.v], node, d);
    if e.request.nodeId == node {
      AdmittedFits(db, e.request, d);
      assert SizeOf(db'.vms[e.v], d) == Requested(e.request, d);
    }
  }

  lemma {:induction false} RunCapacity(db: Db, run: seq<Step>, node: NodeId, d: Dimension, total: nat, extra: nat)
    requires Inv(db) && FairRun(db, run) && KeepsTotal(run, node, d, total)
    requires 0 < total <= I64_MAX && node in db.nodes && Total(db.nodes[node], d) == total
    requires CommittedIn(db.vms, node, d) <= total + extra
    ensures CommittedIn(AfterRun(db, run).vms, node, d) <= total + extra + TotalReentered(db, run, node, d)
    decreases |run|
  {
    hide Inv, CommittedIn, Reentered, Commits;
    if run != [] {
      StepCapacity(db, run[0], node, d, total, extra);
      StepInv(db, run[0]);
      StepKeepsNode(db, run[0], node);
      RunCapacity(After(db, run[0]), run[1..], node, d, total, extra + Reentered(db, run[0], node, d));
    }
  }

  lemma StepKeepsNode(db: Db, s: Step, node: NodeId)
    requires Inv(db) && Fair(db, s) && node in db.nodes
    ensures node in After(db, s).nodes
    ensures After(db, s).nodes[node] == (if s.NodeStep? && s.node == node then s.row else db.nodes[node])
  {
    hide Inv, CreateVmTask, ActionTask, RetryTask, CancelTask, ReportStatus;
    var e := StepEffect(db, s);
  }

  /**
   Over any run with a known, constant total that starts within it, committed capacity never exceeds
   the total plus the sizes of the VMs that re-entered a counted status from Error other than by a
   retried create. For CPU, and for memory and disk in their floored units.
   */
  lemma CommittedStaysWithinTotal(db: Db, run: seq<Step>, node: NodeId, d: Dimension)
    requires Inv(db) && FairRun(db, run) && node in db.nodes
    requires 0 < Total(db.nodes[node], d) <= I64_MAX && KeepsTotal(run, node, d, Total(db.nodes[node], d))
    requires CommittedIn(db.vms, node, d) <= Total(db.nodes[node], d)
    ensures CommittedIn(AfterRun(db, run).vms, node, d)
            <= Total(db.nodes[node], d) + TotalReentered(db, run, node, d)
    ensures TotalReentered(db, run, node, d) == 0
            ==> CommittedIn(AfterRun(db, run).vms, node, d) <= Total(db.nodes[node], d)
  {
    RunCapacity(db, run, node, d, Total(db.nodes[node], d), 0);
  }

  // ----- Which requests bring a VM back from Error, told beforehand -----

  /** The existing VM a request is about. */
  function Subject(db: Db, s: Step): Option<VmId> {
    match s
    case ActionStep(_, _, _, vm, _, _, _) => Some(vm)
    case RetryStep(_, _, _, source, _) => if source in db.tasks then VmOf(db.tasks[source].kind) else None
    case ReportStep(_, t, _, _, _) => if t in db.tasks then VmOf(db.tasks[t].kind) else None
    case _ => None
  }

  predicate NodeTakesTasks(db: Db, node: NodeId) {
    node in db.nodes && db.nodes[node].registered && db.nodes[node].schedulingEnabled
  }

  /**
   The requests that count a VM in Error again without admission, told by the database they find: an
   acceptable reinstall or delete, an acceptable retry of one, and the success of a start.
   */
  predicate Reenters(db: Db, s: Step) {
    && Subject(db, s).Some? && Subject(db, s).value in db.vms
    && var v := Subject(db, s).value;
       && db.vms[v].status == Error
       && match s
          case ActionStep(_, _, node, _, action, _, enabled) =>
            && action in {Reinstall, Delete} && (action == Reinstall ==> enabled)
            && db.vms[v].node == node && NodeTakesTasks(db, node)
            && !HasActiveTask(LifecycleOf(db, v).lastTaskStatus)
          case RetryStep(_, _, _, source, enabled) =>
            var task := db.tasks[source];
            && (task.kind.ReinstallVm? || task.kind.DeleteVm?) && (task.kind.ReinstallVm? ==> enabled)
            && task.status in {Failed, Canceled} && NodeTakesTasks(db, task.node)
            && !HasActiveTask(LifecycleOf(db, v).lastTaskStatus)
          case ReportStep(_, t, node, status, _) =>
            && db.tasks[t].kind.StartVm? && db.tasks[t].status == Running && db.tasks[t].node == node
            && status == Succeeded
          case _ => false
  }

  /** What such a request adds to a node. */
  function ReentrySize(db: Db, s: Step, node: NodeId, d: Dimension): nat {
    if Reenters(db, s) && db.vms[Subject(db, s).value].node == node then SizeOf(db.vms[Subject(db, s).value], d) else 0
  }

  /** A VM in Error that a request counts again. */
  ghost predicate BringsBack(db: Db, s: Step, v: VmId) {
    && v in db.vms && db.vms[v].status == Error && v in After(db, s).vms && Counted(After(db, s).vms[v].status)
    && !IsRetriedCreate(db, s)
  }

  lemma ActionBringsBack(db: Db, s: Step)
    requires Inv(db) && Fair(db, s) && s.ActionStep? && s.vm in db.vms && db.vms[s.vm].status == Error
    ensures BringsBack(db, s, s.vm) <==> Reenters(db, s)
  {
    hide Inv, Counted;
    ActionAcceptedIff(db, s.now, s.task, s.node, s.vm, s.action, s.image, s.imageEnabled);
    if Commits(db, s).Some? {
      ActionStatus(db, s);
    }
    assert Counted(Provisioning) && Counted(Deleting) && !Counted(Error) by {
      CountedStatuses();
    }
  }

  lemma CountedStatuses()
    ensures forall status :: Counted(status) <==> status != Error && status != Deleted
  {
  }

  /** The status an accepted action leaves. */
  lemma ActionStatus(db: Db, s: Step)
    requires s.ActionStep? && Commits(db, s).Some?
    ensures s.vm in db.vms && s.vm in After(db, s).vms
    ensures After(db, s).vms[s.vm].status
            == match s.action case Reinstall => Provisioning case Delete => Deleting case _ => db.vms[s.vm].status
  {
    hide ActionAllowed, AcceptsTask, NextImage;
  }

  lemma RetryBringsBack(db: Db, s: Step, v: VmId)
    requires Inv(db) && Fair(db, s) && s.RetryStep? && Subject(db, s) == Some(v)
    requires v in db.vms && db.vms[v].status == Error
    ensures BringsBack(db, s, v) <==> Reenters(db, s)
  {
    hide Inv, Counted, HasCapacity, ReserveFor;
    CountedStatuses();
    if !IsRetriedCreate(db, s) {
      TaskFacts(db, s.source);
      RetryAcceptedIff(db, s.now, s.task, s.allocation, s.source, s.imageEnabled);
      if Commits(db, s).Some? {
        RetryStatus(db, s, v);
      }
    }
  }

  /** The status an accepted retry of anything but a create leaves. */
  lemma RetryStatus(db: Db, s: Step, v: VmId)
    requires s.RetryStep? && !IsRetriedCreate(db, s) && Commits(db, s).Some? && Subject(db, s) == Some(v)
    ensures v in db.vms && v in After(db, s).vms
    ensures After(db, s).vms[v].status
            == match db.tasks[s.source].kind
               case ReinstallVm(_, _, _) => Provisioning
               case DeleteVm(_) => Deleting
               case _ => db.vms[v].status
  {
    hide HasCapacity, ReserveFor, AcceptsTask, RetryAllowed;
  }

  lemma ReportBringsBack(db: Db, s: Step, v: VmId)
    requires Inv(db) && Fair(db, s) && s.ReportStep? && Subject(db, s) == Some(v)
    requires v in db.vms && db.vms[v].status == Error
    ensures BringsBack(db, s, v) <==> Reenters(db, s)
  {
    hide Inv, Counted;
    CountedStatuses();
    TaskFacts(db, s.target);
    ReportAcceptedIff(db, s.now, s.target, s.node, s.status, s.messageOk);
    if Commits(db, s).Some? {
      assert IsActive(db.tasks[s.target].status);
      assert db.tasks[s.target].kind.StartVm?;
    }
  }

  lemma CancelBringsNothingBack(db: Db, s: Step, v: VmId)
    requires Inv(db) && Fair(db, s) && s.CancelStep? && v in db.vms && db.vms[v].status == Error
    ensures !BringsBack(db, s, v)
  {
    hide Inv, Counted;
    CountedStatuses();
    if Commits(db, s).Some? {
      TaskFacts(db, s.target);
    }
  }

  /** At most one row changes, and which one. */
  lemma OneRowChanges(db: Db, s: Step, v: VmId)
    requires Inv(db) && Fair(db, s) && v in db.vms && Subject(db, s) != Some(v) && !s.CancelStep?
    ensures v in After(db, s).vms && After(db, s).vms[v] == db.vms[v]
  {
    hide Inv, CreateVmTask, ActionTask, RetryTask, CancelTask, ReportStatus, PollTask;
    var e := StepEffect(db, s);
  }

  /** The guard is exact: it holds iff the request counts a VM in Error again, and tells which. */
  lemma ReentersIff(db: Db, s: Step, v: VmId)
    requires Inv(db) && Fair(db, s) && v in db.vms && db.vms[v].status == Error
    ensures BringsBack(db, s, v) <==> Reenters(db, s) && Subject(db, s) == Some(v)
  {
    hide Inv, Reenters, Commits, Fair;
    if s.CancelStep? {
      CancelBringsNothingBack(db, s, v);
    } else if Subject(db, s) != Some(v) {
      OneRowChanges(db, s, v);
    } else if s.ActionStep? {
      ActionBringsBack(db, s);
    } else if s.RetryStep? {
      RetryBringsBack(db, s, v);
    } else {
      ReportBringsBack(db, s, v);
    }
  }

  lemma {:induction false} SumOfZeros(w: map<VmId, nat>)
    requires forall v | v in w :: w[v] == 0
    ensures Sum(w) == 0
    decreases |w|
  {
    if w != map[] {
      var v :| v in w;
      SumSplit(w, v);
      SumOfZeros(w - {v});
    }
  }

  /** What a step re-enters is what the guard says beforehand. */
  lemma ReenteredIsGuarded(db: Db, s: Step, node: NodeId, d: Dimension)
    requires Inv(db) && Fair(db, s)
    ensures Reentered(db, s, node, d) == ReentrySize(db, s, node, d)
  {
    hide Inv, Sum, After, Reenters, Subject, Fair;
    var w := ReentryWeights(db.vms, After(db, s).vms, node, d);
    var zeros: map<VmId, nat> := map v | v in db.vms :: 0;
    SumOfZeros(zeros);
    if !IsRetriedCreate(db, s) {
      forall v | v in db.vms
        ensures w[v] == if Reenters(db, s) && Subject(db, s) == Some(v) && db.vms[v].node == node
                        then SizeOf(db.vms[v], d) else 0
      {
        if db.vms[v].status == Error {
          ReentersIff(db, s, v);
        } else {
          NotInError(db, s, v);
        }
      }
      GuardedSum(db, s, node, d, w, zeros);
    } else {
      RetriedCreateIsNoReentry(db, s);
    }
  }

  lemma NotInError(db: Db, s: Step, v: VmId)
    requires v in db.vms && db.vms[v].status != Error
    ensures !(Reenters(db, s) && Subject(db, s) == Some(v))
  {
  }

  lemma RetriedCreateIsNoReentry(db: Db, s: Step)
    requires IsRetriedCreate(db, s)
    ensures !Reenters(db, s)
  {
  }

  lemma GuardedSum(db: Db, s: Step, node: NodeId, d: Dimension, w: map<VmId, nat>, zeros: map<VmId, nat>)
    requires w.Keys == db.vms.Keys && zeros.Keys == db.vms.Keys && Sum(zeros) == 0
    requires forall v | v in zeros :: zeros[v] == 0
    requires forall v | v in w ::
               w[v] == if Reenters(db, s) && Subject(db, s) == Some(v) && db.vms[v].node == node
                       then SizeOf(db.vms[v], d) else 0
    ensures Sum(w) == ReentrySize(db, s, node, d)
  {
    if Reenters(db, s) {
      var v := Subject(db, s).value;
      hide Sum, Reenters, Subject;
      SumUpdate<VmId>(zeros, v, w[v]);
      assert zeros[v := w[v]] == w;
    } else {
      assert w == zeros;
    }
  }

  /** Such a request is accepted whatever is committed, and adds exactly the size of its VM to the VM's node. */
  lemma ReentrySkipsAdmission(db: Db, s: Step, d: Dimension)
    requires Inv(db) && Fair(db, s) && Reenters(db, s)
    ensures Commits(db, s).Some?
    ensures var v := Subject(db, s).value;
            CommittedIn(After(db, s).vms, db.vms[v].node, d)
            == CommittedIn(db.vms, db.vms[v].node, d) + SizeOf(db.vms[v], d)
  {
    var v := Subject(db, s).value;
    ReentersIff(db, s, v);
    ReentryChangesOneRow(db, s, v);
    hide Inv, CommittedIn, After, Commits, Reenters, Subject;
    CommittedOfUpdate(db.vms, v, After(db, s).vms[v], db.vms[v].node, d);
  }

  lemma ReentryChangesOneRow(db: Db, s: Step, v: VmId)
    requires Inv(db) && Fair(db, s) && Reenters(db, s) && Subject(db, s) == Some(v) && BringsBack(db, s, v)
    ensures Commits(db, s).Some?
    ensures v in After(db, s).vms && After(db, s).vms == db.vms[v := After(db, s).vms[v]]
    ensures SameShape(db.vms[v], After(db, s).vms[v])
  {
    hide Inv, CreateVmTask, ActionTask, RetryTask, CancelTask, ReportStatus, PollTask;
    var e := StepEffect(db, s);
  }

  /** One request, exactly: committed capacity stays within the total iff what the guard lets back in still fits. */
  lemma StaysWithinIff(db: Db, s: Step, node: NodeId, d: Dimension, total: nat)
    requires Inv(db) && Fair(db, s)
    requires 0 < total <= I64_MAX && node in db.nodes && Total(db.nodes[node], d) == total
    requires CommittedIn(db.vms, node, d) <= total
    ensures CommittedIn(After(db, s).vms, node, d) <= total
            <==> CommittedIn(db.vms, node, d) + ReentrySize(db, s, node, d) <= total
  {
    var back := Reenters(db, s) && db.vms[Subject(db, s).value].node == node;
    hide Inv, CommittedIn, After, Reenters, Subject, Reentered, Fair;
    if back {
      ReentrySkipsAdmission(db, s, d);
    } else {
      StepCapacity(db, s, node, d, total, 0);
      ReenteredIsGuarded(db, s, node, d);
    }
  }

  /** Before the run and after each of its requests. */
  ghost predicate AlwaysWithin(db: Db, run: seq<Step>, node: NodeId, d: Dimension, total: nat)
    decreases |run|
  {
    CommittedIn(db.vms, node, d) <= total
    && (run != [] ==> AlwaysWithin(After(db, run[0]), run[1..], node, d, total))
  }

  /** Each request of the run finds room for what it lets back in. */
  ghost predicate ReentriesFit(db: Db, run: seq<Step>, node: NodeId, d: Dimension, total: nat)
    decreases |run|
  {
    run != [] ==>
      && CommittedIn(db.vms, node, d) + ReentrySize(db, run[0], node, d) <= total
      && ReentriesFit(After(db, run[0]), run[1..], node, d, total)
  }

  /**
   Whole runs, exactly: with a known constant total, and started within it, committed capacity stays within the
   total throughout iff every request that the guard names finds room.
   */
  lemma {:induction false} AlwaysWithinIff(db: Db, run: seq<Step>, node: NodeId, d: Dimension, total: nat)
    requires Inv(db) && FairRun(db, run) && KeepsTotal(run, node, d, total)
    requires 0 < total <= I64_MAX && node in db.nodes && Total(db.nodes[node], d) == total
    requires CommittedIn(db.vms, node, d) <= total
    ensures AlwaysWithin(db, run, node, d, total) <==> ReentriesFit(db, run, node, d, total)
    decreases |run|
  {
    hide Inv, CommittedIn, ReentrySize, Commits;
    if run != [] {
      var next := After(db, run[0]);
      StaysWithinIff(db, run[0], node, d, total);
      StepInv(db, run[0]);
      StepKeepsNode(db, run[0], node);
      if CommittedIn(next.vms, node, d) <= total {
        AlwaysWithinIff(next, run[1..], node, d, total);
      }
    }
  }

  // ----- A run above the total -----

  function ExcessNode(cores: nat): NodeRow {
    NodeRow(true, true, true, Some("1"), Some(1), Available, cores, 0, 0)
  }

  function ExcessRequest(cores: nat): CreateVmRequest {
    CreateVmRequest(0, None, None, None, None, None, None, true, "image", cores, 128, 1)
  }

  /** A create is canceled, another takes its place, and a reinstall brings the first VM back. */
  function ExcessRun(cores: nat): seq<Step> {
    var r := ExcessRequest(cores);
    [NodeStep(1, 0, ExcessNode(cores)),
     CreateVmStep(2, 0, 0, 0, r, PlanMissing, true),
     CancelStep(3, 0),
     CreateVmStep(4, 1, 1, 1, r, PlanMissing, true),
     ActionStep(5, 2, 0, 0, Reinstall, None, true)]
  }

  /** A VM of `ExcessRun` whose last task is the create `t`. */
  function ExcessVm(cores: nat, t: TaskId, status: VmStatus): Vm {
    Vm(0, None, None, "image", cores, 128, 1, status, Some(t), None)
  }

  /** The task that creates VM `v`. */
  function ExcessTask(cores: nat, v: VmId, status: TaskStatus, at: int): Task {
    Task(0, CreateVm(ExcessRequest(cores).(vmId := Some(v))), status, at)
  }

  /** The database of the run with these tasks and VMs. */
  function ExcessDb(cores: nat, tasks: map<TaskId, Task>, vms: map<VmId, Vm>, now: int): Db {
    Db(map[0 := ExcessNode(cores)], map[], tasks, vms, map[], now)
  }

  lemma ExcessCreate(cores: nat, tasks: map<TaskId, Task>, vms: map<VmId, Vm>, now: int, t: TaskId)
    requires 1 <= cores <= 32 && t !in tasks && t !in vms && 1 <= now <= 10
    requires CommittedIn(vms, 0, Cpu) == 0
    ensures Commits(ExcessDb(cores, tasks, vms, now),
                    CreateVmStep(now + 1, t, t, t, ExcessRequest(cores), PlanMissing, true))
            == Some(ExcessDb(cores, tasks[t := ExcessTask(cores, t, Pending, now + 1)],
                             vms[t := ExcessVm(cores, t, Provisioning)], now + 1))
  {
    hide CommittedIn;
  }

  lemma ExcessCancel(cores: nat)
    ensures Commits(ExcessDbs(cores)[2], CancelStep(3, 0))
            == Some(ExcessDbs(cores)[3])
  {
    var db := ExcessDbs(cores)[2];
    assert db.tasks[0 := ExcessTask(cores, 0, Canceled, 2)] == map[0 := ExcessTask(cores, 0, Canceled, 2)];
    assert db.vms[0 := ExcessVm(cores, 0, Error)] == map[0 := ExcessVm(cores, 0, Error)];
    assert Ipam.Release(db.allocations, 0, 3) == map[];
  }

  lemma OneMoreVm(cores: nat, vms: map<VmId, Vm>, t: TaskId, status: VmStatus)
    requires t !in vms
    ensures CommittedIn(vms[t := ExcessVm(cores, t, status)], 0, Cpu)
            == CommittedIn(vms, 0, Cpu) + if Counted(status) then cores else 0
  {
    hide CommittedIn;
    CommittedOfUpdate(vms, t, ExcessVm(cores, t, status), 0, Cpu);
  }

  /** The databases along the run, up to its last request: two VMs, one of them in Error. */
  function ExcessDbs(cores: nat): seq<Db> {
    var first, second := ExcessTask(cores, 0, Pending, 2), ExcessTask(cores, 1, Pending, 4);
    var canceled := map[0 := ExcessTask(cores, 0, Canceled, 2)];
    var failed := map[0 := ExcessVm(cores, 0, Error)];
    [Empty(),
     ExcessDb(cores, map[], map[], 1),
     ExcessDb(cores, map[0 := first], map[0 := ExcessVm(cores, 0, Provisioning)], 2),
     ExcessDb(cores, canceled, failed, 3),
     ExcessDb(cores, canceled[1 := second], failed[1 := ExcessVm(cores, 1, Provisioning)], 4)]
  }

  lemma ExcessFair(cores: nat, i: nat)
    requires i <= 4
    ensures Fair(ExcessDbs(cores)[i], ExcessRun(cores)[i])
    ensures i == 0 ==> After(ExcessDbs(cores)[i], ExcessRun(cores)[i]) == ExcessDbs(cores)[1]
  {
    assert i == 0 || i == 1 || i == 2 || i == 3 || i == 4;
  }

  lemma ExcessCommitted(cores: nat)
    ensures CommittedIn(map[], 0, Cpu) == 0
    ensures CommittedIn(map[0 := ExcessVm(cores, 0, Error)], 0, Cpu) == 0
    ensures CommittedIn(map[0 := ExcessVm(cores, 0, Error)][1 := ExcessVm(cores, 1, Provisioning)], 0, Cpu) == cores
  {
    var none: map<VmId, Vm> := map[];
    assert CommittedIn(none, 0, Cpu) == 0;
    hide CommittedIn;
    OneMoreVm(cores, none, 0, Error);
    assert none[0 := ExcessVm(cores, 0, Error)] == map[0 := ExcessVm(cores, 0, Error)];
    OneMoreVm(cores, map[0 := ExcessVm(cores, 0, Error)], 1, Provisioning);
  }

  lemma ExcessStep(cores: nat, i: nat)
    requires 1 <= cores <= 32 && i < 4
    ensures Fair(ExcessDbs(cores)[i], ExcessRun(cores)[i])
    ensures After(ExcessDbs(cores)[i], ExcessRun(cores)[i]) == ExcessDbs(cores)[i + 1]
  {
    ExcessFair(cores, i);
    ExcessCommitted(cores);
    hide CommittedIn, Commits, Fair;
    if i == 1 {
      ExcessCreate(cores, map[], map[], 1, 0);
      ExcessFirst(cores);
    } else if i == 2 {
      ExcessCancel(cores);
    } else if i == 3 {
      ExcessCreate(cores, ExcessDbs(cores)[3].tasks, ExcessDbs(cores)[3].vms, 3, 1);
    }
  }

  lemma ExcessFirst(cores: nat)
    ensures ExcessDb(cores, map[][0 := ExcessTask(cores, 0, Pending, 2)],
                     map[][0 := ExcessVm(cores, 0, Provisioning)], 2)
            == ExcessDbs(cores)[2]
  {
  }

  lemma {:induction false} ExcessPrefix(cores: nat, n: nat)
    requires 1 <= cores <= 32 && n <= 4
    ensures FairRun(Empty(), ExcessRun(cores)[..n]) && AfterRun(Empty(), ExcessRun(cores)[..n]) == ExcessDbs(cores)[n]
  {
    if n > 0 {
      ExcessStep(cores, n - 1);
      ExcessPrefix(cores, n - 1);
      hide After, Fair, FairRun, AfterRun, ExcessDbs;
      assert ExcessRun(cores)[..n] == ExcessRun(cores)[..n - 1] + [ExcessRun(cores)[n - 1]];
      RunSnoc(Empty(), ExcessRun(cores)[..n - 1], ExcessRun(cores)[n - 1]);
    }
  }

  /** The last request is one the guard names: it brings the first VM back. */
  lemma ExcessLast(cores: nat)
    requires 1 <= cores <= 32
    ensures var db, s := ExcessDbs(cores)[4], ExcessRun(cores)[4];
            && Fair(db, s) && Reenters(db, s) && Subject(db, s) == Some(0)
            && db.vms[0].node == 0 && SizeOf(db.vms[0], Cpu) == cores
            && s.ActionStep? && 0 in db.nodes && Total(db.nodes[0], Cpu) == cores
            && CommittedIn(db.vms, 0, Cpu) == cores
  {
    ExcessCommitted(cores);
    hide CommittedIn;
  }

  /** Every node of 1 to 32 cores can be committed twice over, from an empty database. */
  lemma ExcessIsReached(cores: nat)
    requires 1 <= cores <= 32
    ensures FairRun(Empty(), ExcessRun(cores))
    ensures var db := AfterRun(Empty(), ExcessRun(cores));
            0 in db.nodes && Total(db.nodes[0], Cpu) == cores && CommittedIn(db.vms, 0, Cpu) == 2 * cores
  {
    var run, db := ExcessRun(cores), ExcessDbs(cores)[4];
    assert run == run[..4] + [run[4]];
    ExcessLast(cores);
    hide *;
    ExcessPrefix(cores, 4);
    RunSnoc(Empty(), run[..4], run[4]);
    EmptyInv();
    RunInv(Empty(), run[..4]);
    ReentrySkipsAdmission(db, run[4], Cpu);
    StepKeepsNode(db, run[4], 0);
  }
}
