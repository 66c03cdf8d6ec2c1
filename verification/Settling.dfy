/**
 Which running tasks can still come to an end. An agent that restarts during host work, or loses all its final
 reports, leaves a task Running that nobody will report and no administrator may cancel.
 */
module Settling {
  import opened Wrappers
  import opened Tasks
  import opened Database
  import opened Invariants
  import Guarantees
  import opened Protocol

  /** The agent is at work on the task, may report it once more, or has only to read that it may start. */
  predicate Carries(p: System, n: NodeId, t: TaskId) {
    match AgentOf(p, n)
    case Executing(u) => u == t
    case Reporting(u, _, attempt, _) => u == t && attempt < TERMINAL_STATUS_UPDATE_ATTEMPTS
    case Asking(u, rid) => u == t && rid in p.replies && p.replies[rid] == Accepted
    case _ => false
  }

  predicate IsFinalReport(r: Request, t: TaskId) {
    r.Update? && r.task == t && r.status != Running
  }

  /** Some agent carries the task, or a final report of it is on the network. */
  ghost predicate CanSettle(p: System, t: TaskId) {
    (exists n :: Carries(p, n, t)) || (exists rid | rid in p.requests :: IsFinalReport(p.requests[rid], t))
  }

  ghost predicate IsRunning(p: System, t: TaskId) {
    t in p.db.tasks && p.db.tasks[t].status == Running
  }

  ghost predicate Stuck(p: System, t: TaskId) {
    IsRunning(p, t) && !CanSettle(p, t)
  }

  // ----- A stuck task stays stuck -----

  /** Nobody holds or is offered a task that is running. */
  lemma RunningIsNotHeld(p: System, t: TaskId)
    requires SystemOk(p) && IsRunning(p, t)
    ensures forall n :: AgentOf(p, n) != Holding(t)
    ensures forall rid | rid in p.replies :: p.replies[rid] != Offer(Some(t))
  {
    hide Inv, Count, TaskLogOk;
    assert StageOk(p, t);
    forall n
      ensures AgentOf(p, n) != Holding(t)
    {
      assert AgentOk(p, n);
    }
    forall rid | rid in p.replies
      ensures p.replies[rid] != Offer(Some(t))
    {
      assert ReplyOk(p, rid);
    }
  }

  /** Only agent `n` changed, it does not carry the task, and nothing about the task was sent or answered. */
  ghost predicate LeavesAlone(p: System, q: System, n: NodeId, t: TaskId) {
    && q.db == p.db && (forall k | k != n :: AgentOf(q, k) == AgentOf(p, k))
    && !Carries(q, n, t)
    && (forall rid | rid in q.replies :: rid in p.replies && q.replies[rid] == p.replies[rid])
    && (forall rid | rid in q.requests ::
          (rid in p.requests && q.requests[rid] == p.requests[rid]) || !IsFinalReport(q.requests[rid], t))
  }

  lemma StuckFrame(p: System, q: System, n: NodeId, t: TaskId)
    requires Stuck(p, t) && LeavesAlone(p, q, n, t)
    ensures Stuck(q, t)
  {
    forall k
      ensures !Carries(q, k, t)
    {
      assert !Carries(p, k, t);
    }
    forall rid | rid in q.requests
      ensures !IsFinalReport(q.requests[rid], t)
    {
      assert rid in p.requests ==> !IsFinalReport(p.requests[rid], t);
    }
  }

  lemma ReceiveLeavesStuck(p: System, n: NodeId, t: TaskId)
    requires SystemOk(p) && Stuck(p, t)
    ensures Stuck(OnReceive(p, n), t)
  {
    RunningIsNotHeld(p, t);
    assert !Carries(p, n, t);
    hide Inv, Wired, SystemOk, CanSettle, IsRunning;
    ReceiveLeavesAlone(p, n, t);
    hide OnReceive, LeavesAlone;
    if OnReceive(p, n) != p {
      StuckFrame(p, OnReceive(p, n), n, t);
    }
  }

  lemma ReceiveLeavesAlone(p: System, n: NodeId, t: TaskId)
    requires !Carries(p, n, t)
    requires forall rid | rid in p.replies :: p.replies[rid] != Offer(Some(t))
    ensures OnReceive(p, n) == p || LeavesAlone(p, OnReceive(p, n), n, t)
  {
    match AgentOf(p, n)
    case Polling(rid) =>
    case Asking(u, rid) =>
    case Reporting(_, _, _, rid) =>
      if rid in p.replies {
        NextAttemptLeavesAlone(p.(replies := p.replies - {rid}), n, t);
        hide NextAttempt;
      }
    case _ =>
  }

  lemma NextAttemptLeavesAlone(p: System, n: NodeId, t: TaskId)
    requires AgentOf(p, n).Reporting? && !Carries(p, n, t)
    ensures LeavesAlone(p, NextAttempt(p, n, AgentOf(p, n)), n, t)
  {
  }

  lemma GiveUpLeavesStuck(p: System, n: NodeId, t: TaskId)
    requires Stuck(p, t)
    ensures Stuck(OnGiveUp(p, n), t)
  {
    assert !Carries(p, n, t);
    hide CanSettle;
    if OnGiveUp(p, n) != p {
      StuckFrame(p, OnGiveUp(p, n), n, t);
    }
  }

  /** The moves of an agent that neither answer nor are answered. */
  lemma OwnMoveLeavesStuck(p: System, m: Move, t: TaskId)
    requires SystemOk(p) && Stuck(p, t)
    requires m.SendPoll? || m.Abandon? || m.FailValidation? || m.AskRunning? || m.HostDone? || m.Restart?
    ensures Stuck(Do(p, m), t)
  {
    RunningIsNotHeld(p, t);
    assert !Carries(p, m.node, t);
    hide Inv, Wired, SystemOk, CanSettle, IsRunning;
    OwnMoveLeavesAlone(p, m, t);
    hide Do, LeavesAlone;
    if Do(p, m) != p {
      StuckFrame(p, Do(p, m), m.node, t);
    }
  }

  lemma OwnMoveLeavesAlone(p: System, m: Move, t: TaskId)
    requires m.SendPoll? || m.Abandon? || m.FailValidation? || m.AskRunning? || m.HostDone? || m.Restart?
    requires AgentOf(p, m.node) != Holding(t) && !Carries(p, m.node, t)
    ensures Do(p, m) == p || LeavesAlone(p, Do(p, m), m.node, t)
  {
    if m.FailValidation? || m.HostDone? {
      ReportLeavesAlone(p, m, t);
    }
  }

  lemma ReportLeavesAlone(p: System, m: Move, t: TaskId)
    requires m.FailValidation? || m.HostDone?
    requires AgentOf(p, m.node) != Holding(t) && !Carries(p, m.node, t)
    ensures Do(p, m) == p || LeavesAlone(p, Do(p, m), m.node, t)
  {
  }

  lemma LoseLeavesStuck(p: System, rid: Rid, t: TaskId)
    requires Stuck(p, t)
    ensures Stuck(p.(requests := p.requests - {rid}), t)
  {
    var q := p.(requests := p.requests - {rid});
    forall k
      ensures !Carries(q, k, t)
    {
      assert !Carries(p, k, t);
    }
  }

  // ----- Neither does the master, an administrator or the network -----

  /** The master changed no agent, sent no request, and answered no one that waits to start the task. */
  ghost predicate AnswersNoStart(p: System, q: System, t: TaskId) {
    && q.agents == p.agents
    && (forall rid | rid in q.requests :: rid in p.requests && q.requests[rid] == p.requests[rid])
    && (forall n :: AgentOf(p, n).Asking? && AgentOf(p, n).task == t && AgentOf(p, n).rid in q.replies
                    && q.replies[AgentOf(p, n).rid] == Accepted
                    ==> AgentOf(p, n).rid in p.replies && p.replies[AgentOf(p, n).rid] == Accepted)
  }

  lemma StuckBehind(p: System, q: System, t: TaskId)
    requires Stuck(p, t) && IsRunning(q, t) && AnswersNoStart(p, q, t)
    ensures Stuck(q, t)
  {
    forall n
      ensures !Carries(q, n, t)
    {
      assert !Carries(p, n, t);
      assert AgentOf(q, n) == AgentOf(p, n);
    }
    forall rid | rid in q.requests
      ensures !IsFinalReport(q.requests[rid], t)
    {
      assert !IsFinalReport(p.requests[rid], t);
    }
  }

  /** An administrator cannot settle a running task. */
  lemma AdminLeavesRunning(p: System, s: Step, t: TaskId)
    requires SystemOk(p) && Fits(p, Admin(s)) && IsRunning(p, t)
    ensures IsRunning(OnAdmin(p, s), t)
  {
    hide Inv, Wired, Commits, SettleEffect, QueueEffect, CreateEffect;
    var e := StepEffect(p.db, s);
    var db' := After(p.db, s);
    hide After;
    AdminTables(p.db, db', s.now, e);
    if s.CancelStep? && Commits(p.db, s).Some? {
      CancelNeeds(p.db, s);
    }
  }

  lemma AdminLeavesStuck(p: System, s: Step, t: TaskId)
    requires SystemOk(p) && Fits(p, Admin(s)) && Stuck(p, t)
    ensures Stuck(OnAdmin(p, s), t)
  {
    AdminLeavesRunning(p, s, t);
    hide SystemOk, Fits, CanSettle, IsRunning, After, Commits;
    StuckBehind(p, OnAdmin(p, s), t);
  }

  /** What the master does with a request when no final report of a running task is on the network. */
  lemma DeliverLeavesRunning(p: System, rid: Rid, now: int, ok: bool, away: bool, lost: bool, again: bool, t: TaskId)
    requires SystemOk(p) && rid in p.requests && now > p.db.clock && IsRunning(p, t)
    requires !IsFinalReport(p.requests[rid], t)
    ensures IsRunning(OnDeliver(p, rid, now, ok, away, lost, again), t)
  {
    hide Inv, Wired, ReportStatus, PollTask;
    if !away {
      match p.requests[rid]
      case Poll(n) =>
        PollTables(p.db, now, n);
      case Update(n, u, status) =>
        if ReportStatus(p.db, now, u, n, status, ok).Some? {
          ReportTables(p.db, now, u, n, status, ok);
        }
    }
  }

  /** A request to start a task that is already running is refused. */
  lemma NoSecondStart(p: System, rid: Rid, now: int, ok: bool, n: NodeId, t: TaskId)
    requires SystemOk(p) && IsRunning(p, t) && rid in p.requests
    requires AgentOf(p, n).Asking? && AgentOf(p, n).task == t && AgentOf(p, n).rid == rid
    ensures exists k :: p.requests[rid] == Update(k, t, Running) && ReportStatus(p.db, now, t, k, Running, ok) == None
  {
    hide Inv, Count, TaskLogOk;
    assert AgentOk(p, n) && StageOk(p, t);
    assert p.requests[rid] == Update(n, t, Running);
  }

  lemma DeliverChanges(p: System, rid: Rid, now: int, ok: bool, away: bool, lost: bool, again: bool)
    requires rid in p.requests
    ensures var q := OnDeliver(p, rid, now, ok, away, lost, again);
            && q.agents == p.agents && q.nextRid == p.nextRid
            && (forall r | r in q.requests :: r in p.requests && q.requests[r] == p.requests[r])
            && (forall r | r in q.replies && r != rid :: r in p.replies && q.replies[r] == p.replies[r])
  {
    hide PollTask, ReportStatus;
  }

  lemma RefusedIsNotAccepted(p: System, rid: Rid, now: int, ok: bool, away: bool, lost: bool, again: bool)
    requires rid in p.requests && p.requests[rid].Update?
    requires var Update(n, t, status) := p.requests[rid]; ReportStatus(p.db, now, t, n, status, ok) == None
    ensures var q := OnDeliver(p, rid, now, ok, away, lost, again);
            rid in q.replies && q.replies[rid] == Accepted ==> rid in p.replies && p.replies[rid] == Accepted
  {
    hide ReportStatus;
  }

  /** Nobody who waits to start a running task is answered Accepted by this delivery. */
  lemma NoStartAccepted(p: System, rid: Rid, now: int, ok: bool, away: bool, lost: bool, again: bool, n: NodeId,
                        t: TaskId)
    requires SystemOk(p) && rid in p.requests && IsRunning(p, t)
    requires AgentOf(p, n).Asking? && AgentOf(p, n).task == t && AgentOf(p, n).rid == rid
    ensures var q := OnDeliver(p, rid, now, ok, away, lost, again);
            rid in q.replies && q.replies[rid] == Accepted ==> rid in p.replies && p.replies[rid] == Accepted
  {
    hide SystemOk, IsRunning, OnDeliver, ReportStatus;
    NoSecondStart(p, rid, now, ok, n, t);
    RefusedIsNotAccepted(p, rid, now, ok, away, lost, again);
  }

  lemma DeliverAnswersNoStart(p: System, rid: Rid, now: int, ok: bool, away: bool, lost: bool, again: bool, t: TaskId)
    requires SystemOk(p) && rid in p.requests && IsRunning(p, t)
    ensures AnswersNoStart(p, OnDeliver(p, rid, now, ok, away, lost, again), t)
  {
    hide SystemOk, IsRunning, OnDeliver;
    DeliverChanges(p, rid, now, ok, away, lost, again);
    var q := OnDeliver(p, rid, now, ok, away, lost, again);
    forall n | AgentOf(p, n).Asking? && AgentOf(p, n).task == t && AgentOf(p, n).rid in q.replies
               && q.replies[AgentOf(p, n).rid] == Accepted
      ensures AgentOf(p, n).rid in p.replies && p.replies[AgentOf(p, n).rid] == Accepted
    {
      if AgentOf(p, n).rid == rid {
        NoStartAccepted(p, rid, now, ok, away, lost, again, n, t);
      }
    }
  }

  lemma DeliverLeavesStuck(p: System, rid: Rid, now: int, ok: bool, away: bool, lost: bool, again: bool, t: TaskId)
    requires SystemOk(p) && rid in p.requests && now > p.db.clock && Stuck(p, t)
    ensures Stuck(OnDeliver(p, rid, now, ok, away, lost, again), t)
  {
    DeliverLeavesRunning(p, rid, now, ok, away, lost, again, t);
    DeliverAnswersNoStart(p, rid, now, ok, away, lost, again, t);
    hide SystemOk, IsRunning, CanSettle, OnDeliver, AnswersNoStart;
    StuckBehind(p, OnDeliver(p, rid, now, ok, away, lost, again), t);
  }

  /** Whatever happens next, a stuck task stays stuck. */
  lemma StuckMove(p: System, m: Move, t: TaskId)
    requires SystemOk(p) && Fits(p, m) && Stuck(p, t)
    ensures Stuck(Do(p, m), t)
  {
    hide SystemOk, Stuck, OnAdmin, OnDeliver, OnReceive, OnGiveUp;
    match m
    case Admin(s) => AdminLeavesStuck(p, s, t);
    case Deliver(rid, now, ok, away, lost, again) =>
      if rid in p.requests { DeliverLeavesStuck(p, rid, now, ok, away, lost, again, t); }
    case Lose(rid) => LoseLeavesStuck(p, rid, t);
    case Receive(n) => ReceiveLeavesStuck(p, n, t);
    case GiveUp(n) => GiveUpLeavesStuck(p, n, t);
    case _ => OwnMoveLeavesStuck(p, m, t);
  }

  /** A stuck task shows Running for good. */
  lemma {:induction false} StuckForever(p: System, run: seq<Move>, t: TaskId)
    requires SystemOk(p) && FitRun(p, run) && Stuck(p, t)
    ensures Stuck(DoRun(p, run), t)
    decreases |run|
  {
    hide SystemOk, Stuck, Do;
    if run != [] {
      MoveOk(p, run[0]);
      StuckMove(p, run[0], t);
      StuckForever(Do(p, run[0]), run[1..], t);
    }
  }

  // ----- A task is carried by its own node -----

  function NodeOf(stage: Stage): Option<NodeId> {
    match stage
    case Offered(_) => None
    case Held(n) => Some(n)
    case Asked(n, _) => Some(n)
    case Started(n) => Some(n)
    case Finished(n, _) => Some(n)
    case Rejected(n) => Some(n)
  }

  /** The stage of a task names the node it was created for. */
  ghost predicate StageBelongs(p: System, t: TaskId)
    requires t in p.stages
  {
    NodeOf(p.stages[t]).Some? ==> t in p.db.tasks && p.db.tasks[t].node == NodeOf(p.stages[t]).value
  }

  /** The request an agent polls with is its own, and what it is offered is a task of its node. */
  ghost predicate PollBelongs(p: System, n: NodeId) {
    AgentOf(p, n).Polling? ==>
      var rid := AgentOf(p, n).rid;
      && (rid in p.requests ==> p.requests[rid] == Poll(n))
      && (rid in p.replies && p.replies[rid].Offer? && p.replies[rid].task.Some? ==>
            var t := p.replies[rid].task.value;
            t in p.db.tasks && p.db.tasks[t].node == n)
  }

  ghost predicate Belongs(p: System) {
    (forall t | t in p.stages :: StageBelongs(p, t)) && (forall n :: PollBelongs(p, n))
  }

  /** No task changes its node. */
  ghost predicate SameNodes(p: System, q: System) {
    forall t | t in p.db.tasks :: t in q.db.tasks && q.db.tasks[t].node == p.db.tasks[t].node
  }

  /** One agent moved, with at most one new request and one reply taken. */
  ghost predicate OneAgentMoved(p: System, q: System, n: NodeId) {
    && q.db == p.db && (forall k | k != n :: AgentOf(q, k) == AgentOf(p, k))
    && (forall rid | rid in q.replies :: rid in p.replies && q.replies[rid] == p.replies[rid])
    && (forall rid | rid in q.requests && rid != p.nextRid :: rid in p.requests && q.requests[rid] == p.requests[rid])
    && (AgentOf(q, n).Polling? ==> q == Do(p, SendPoll(n)) || AgentOf(q, n) == AgentOf(p, n))
    && (forall t | t in q.stages :: (t in p.stages && NodeOf(q.stages[t]) == NodeOf(p.stages[t])) || StageBelongs(q, t))
  }

  lemma AgentKeepsBelongs(p: System, q: System, n: NodeId)
    requires SystemOk(p) && Belongs(p) && OneAgentMoved(p, q, n)
    ensures Belongs(q)
  {
    hide Inv, Count, TaskLogOk, StageAllows, MayReport, MayBeUnderWay;
    NextRidIsNew(p);
    forall k
      ensures PollBelongs(q, k)
    {
      assert AgentOk(p, k) && PollBelongs(p, k);
    }
    forall t | t in q.stages
      ensures StageBelongs(q, t)
    {
      if t in p.stages {
        assert StageBelongs(p, t);
      }
    }
  }

  lemma SendPollBelongs(p: System, n: NodeId)
    requires SystemOk(p) && Belongs(p) && AgentOf(p, n).Resting?
    ensures Belongs(Do(p, SendPoll(n)))
  {
    hide SystemOk;
    PollMoved(p, n);
    hide Do, OneAgentMoved;
    AgentKeepsBelongs(p, Do(p, SendPoll(n)), n);
  }

  lemma PollMoved(p: System, n: NodeId)
    requires AgentOf(p, n).Resting?
    ensures OneAgentMoved(p, Do(p, SendPoll(n)), n)
  {
  }

  lemma ReceiveBelongs(p: System, n: NodeId)
    requires SystemOk(p) && Belongs(p)
    ensures Belongs(OnReceive(p, n))
  {
    assert AgentOk(p, n) && PollBelongs(p, n);
    hide Inv, Wired, Belongs, NextAttempt;
    match AgentOf(p, n)
    case Polling(rid) =>
      if rid in p.replies {
        ReceiveOfferMoved(p, n);
        AgentKeepsBelongs(p, OnReceive(p, n), n);
      }
    case Asking(t, rid) =>
      if rid in p.replies {
        ReceiveStartMoved(p, n);
        AgentKeepsBelongs(p, OnReceive(p, n), n);
      }
    case Reporting(_, _, _, rid) =>
      if rid in p.replies {
        ReceiveReportMoved(p, n);
        AgentKeepsBelongs(p, OnReceive(p, n), n);
      }
    case _ =>
  }

  lemma ReceiveOfferMoved(p: System, n: NodeId)
    requires AgentOf(p, n).Polling? && AgentOf(p, n).rid in p.replies && PollBelongs(p, n)
    ensures OneAgentMoved(p, OnReceive(p, n), n)
  {
  }

  lemma ReceiveStartMoved(p: System, n: NodeId)
    requires AgentOf(p, n).Asking? && AgentOf(p, n).rid in p.replies && AgentOk(p, n)
    ensures OneAgentMoved(p, OnReceive(p, n), n)
  {
  }

  lemma ReceiveReportMoved(p: System, n: NodeId)
    requires AgentOf(p, n).Reporting? && AgentOf(p, n).rid in p.replies
    ensures OneAgentMoved(p, OnReceive(p, n), n)
  {
  }

  lemma OtherMoved(p: System, m: Move)
    requires m.GiveUp? || m.Abandon? || m.FailValidation? || m.AskRunning? || m.HostDone? || m.Restart?
    requires AgentOk(p, m.node)
    ensures OneAgentMoved(p, Do(p, m), m.node)
  {
    if m.GiveUp? {
      GaveUpMoved(p, m.node);
    } else if m.HostDone? || m.FailValidation? {
      ReportedMoved(p, m);
    } else {
      RestMoved(p, m);
    }
  }

  lemma GaveUpMoved(p: System, n: NodeId)
    ensures OneAgentMoved(p, Do(p, GiveUp(n)), n)
  {
    if AgentOf(p, n).Reporting? {
      NextAttemptMoved(p, n);
      hide NextAttempt;
    }
  }

  lemma NextAttemptMoved(p: System, n: NodeId)
    requires AgentOf(p, n).Reporting?
    ensures OneAgentMoved(p, NextAttempt(p, n, AgentOf(p, n)), n)
  {
  }

  lemma ReportedMoved(p: System, m: Move)
    requires (m.HostDone? || m.FailValidation?) && AgentOk(p, m.node)
    ensures OneAgentMoved(p, Do(p, m), m.node)
  {
  }

  lemma RestMoved(p: System, m: Move)
    requires (m.Abandon? || m.AskRunning? || m.Restart?) && AgentOk(p, m.node)
    ensures OneAgentMoved(p, Do(p, m), m.node)
  {
  }

  /** The master's tables changed, and perhaps what is on the network, but for replies to polls. */
  ghost predicate TablesMoved(p: System, q: System) {
    && SameNodes(p, q) && q.agents == p.agents && q.stages == p.stages
    && (forall rid | rid in q.requests :: rid in p.requests && q.requests[rid] == p.requests[rid])
    && (forall rid | rid in q.replies ::
          (rid in p.replies && q.replies[rid] == p.replies[rid]) || !q.replies[rid].Offer?)
  }

  lemma TablesKeepBelongs(p: System, q: System)
    requires Belongs(p) && TablesMoved(p, q)
    ensures Belongs(q)
  {
    forall k
      ensures PollBelongs(q, k)
    {
      assert PollBelongs(p, k) && AgentOf(q, k) == AgentOf(p, k);
    }
    forall t | t in q.stages
      ensures StageBelongs(q, t)
    {
      assert StageBelongs(p, t);
    }
  }

  lemma AdminTablesMoved(p: System, s: Step)
    requires SystemOk(p) && Fits(p, Admin(s))
    ensures TablesMoved(p, OnAdmin(p, s))
  {
    hide Inv, Wired, Commits, SettleEffect, QueueEffect, CreateEffect;
    var e := StepEffect(p.db, s);
    var db' := After(p.db, s);
    hide After;
    AdminTables(p.db, db', s.now, e);
  }

  lemma PollPicksOwn(db: Db, now: int, n: NodeId)
    ensures var (db', picked) := PollTask(db, now, n);
            picked.Some? ==> picked.value in db'.tasks && db'.tasks[picked.value].node == n
  {
    var (_, picked) := PollTask(db, now, n);
    if picked.Some? {
      assert IsNextForNode(db, n, picked.value);
    }
  }

  lemma UpdateTablesMoved(p: System, rid: Rid, now: int, ok: bool, away: bool, lost: bool, again: bool)
    requires SystemOk(p) && rid in p.requests && now > p.db.clock && (away || p.requests[rid].Update?)
    ensures TablesMoved(p, OnDeliver(p, rid, now, ok, away, lost, again))
  {
    hide Inv, Wired, ReportStatus, PollTask;
    if !away {
      var Update(n, t, status) := p.requests[rid];
      if ReportStatus(p.db, now, t, n, status, ok).Some? {
        ReportTables(p.db, now, t, n, status, ok);
      }
    }
  }

  /** What a delivered poll changes. */
  lemma PollDelivered(p: System, rid: Rid, now: int, ok: bool, lost: bool, again: bool)
    requires rid in p.requests && p.requests[rid].Poll?
    ensures var q := OnDeliver(p, rid, now, ok, false, lost, again);
            && SameNodes(p, q) && q.agents == p.agents
            && (forall r | r in q.requests :: r in p.requests && q.requests[r] == p.requests[r])
            && (forall r | r in q.replies && r != rid :: r in p.replies && q.replies[r] == p.replies[r])
            && (forall t | t in q.stages ::
                  NodeOf(q.stages[t]) == None || (t in p.stages && q.stages[t] == p.stages[t]))
            && (rid in q.replies && q.replies[rid].Offer? && q.replies[rid].task.Some? ==>
                  || (rid in p.replies && q.replies[rid] == p.replies[rid])
                  || (var t := q.replies[rid].task.value;
                      t in q.db.tasks && q.db.tasks[t].node == p.requests[rid].node))
  {
    PollTables(p.db, now, p.requests[rid].node);
    PollPicksOwn(p.db, now, p.requests[rid].node);
    hide PollTask;
  }

  lemma PollKeepsBelongs(p: System, rid: Rid, now: int, ok: bool, lost: bool, again: bool)
    requires Belongs(p) && rid in p.requests && p.requests[rid].Poll?
    ensures Belongs(OnDeliver(p, rid, now, ok, false, lost, again))
  {
    PollDelivered(p, rid, now, ok, lost, again);
    var q := OnDeliver(p, rid, now, ok, false, lost, again);
    hide OnDeliver;
    forall k
      ensures PollBelongs(q, k)
    {
      assert PollBelongs(p, k) && AgentOf(q, k) == AgentOf(p, k);
    }
    forall t | t in q.stages
      ensures StageBelongs(q, t)
    {
      if t in p.stages {
        assert StageBelongs(p, t);
      }
    }
  }

  lemma MoveBelongs(p: System, m: Move)
    requires SystemOk(p) && Fits(p, m) && Belongs(p)
    ensures Belongs(Do(p, m))
  {
    hide Inv, Belongs, OnAdmin, OnDeliver, OnReceive, OnGiveUp, OneAgentMoved, TablesMoved;
    match m
    case Admin(s) =>
      AdminTablesMoved(p, s);
      TablesKeepBelongs(p, OnAdmin(p, s));
    case Deliver(rid, now, ok, away, lost, again) =>
      if rid in p.requests {
        if away || p.requests[rid].Update? {
          UpdateTablesMoved(p, rid, now, ok, away, lost, again);
          TablesKeepBelongs(p, Do(p, m));
        } else {
          PollKeepsBelongs(p, rid, now, ok, lost, again);
        }
      }
    case Lose(rid) => LoseBelongs(p, rid);
    case Receive(n) => ReceiveBelongs(p, n);
    case SendPoll(n) => if AgentOf(p, n).Resting? { SendPollBelongs(p, n); }
    case _ =>
      assert AgentOk(p, m.node);
      OtherMoved(p, m);
      AgentKeepsBelongs(p, Do(p, m), m.node);
  }

  lemma LoseBelongs(p: System, rid: Rid)
    requires Belongs(p)
    ensures Belongs(p.(requests := p.requests - {rid}))
  {
    var q := p.(requests := p.requests - {rid});
    assert TablesMoved(p, q);
    TablesKeepBelongs(p, q);
  }

  lemma {:induction false} RunBelongs(p: System, run: seq<Move>)
    requires SystemOk(p) && Belongs(p) && FitRun(p, run)
    ensures Belongs(DoRun(p, run))
    decreases |run|
  {
    hide SystemOk, Belongs, Do;
    if run != [] {
      MoveBelongs(p, run[0]);
      MoveOk(p, run[0]);
      RunBelongs(Do(p, run[0]), run[1..]);
    }
  }

  /** In every reachable system a task is handed to, run by and reported by the node it was created for. */
  lemma TasksStayOnTheirNode(p: System, t: TaskId)
    requires Reachable(p) && t in p.stages && NodeOf(p.stages[t]).Some?
    ensures t in p.db.tasks && p.db.tasks[t].node == NodeOf(p.stages[t]).value
  {
    ReachableBelongs(p);
    assert StageBelongs(p, t);
  }

  lemma ReachableBelongs(p: System)
    requires Reachable(p)
    ensures SystemOk(p) && Belongs(p)
  {
    hide SystemOk;
    ReachableOk(p);
    var run :| FitRun(Initial(), run) && DoRun(Initial(), run) == p;
    InitialOk();
    assert Belongs(Initial());
    hide Belongs;
    RunBelongs(Initial(), run);
  }

  // ----- Any other running task can be settled -----

  /** A final report on the network settles its task when it is delivered. */
  lemma DeliverySettles(p: System, rid: Rid, t: TaskId)
    requires SystemOk(p) && Belongs(p) && IsRunning(p, t)
    requires rid in p.requests && IsFinalReport(p.requests[rid], t)
    ensures var m := Deliver(rid, p.db.clock + 1, true, false, true, false);
            Fits(p, m) && t in Do(p, m).db.tasks && Do(p, m).db.tasks[t].status != Running
  {
    hide Inv, Wired, Belongs, Do, ReportStatus;
    var n, status := p.requests[rid].node, p.requests[rid].status;
    ReportComesFromItsNode(p, rid, t);
    assert Inv(p.db) && Fits(p, Deliver(rid, p.db.clock + 1, true, false, true, false));
    assert p.requests[rid] == Update(n, t, status) && p.db.tasks[t].status == Running;
    hide *;
    ReportIsTaken(p.db, t, n, status);
    ReportDelivered(p, rid, n, t, status);
  }

  lemma ReportIsTaken(db: Db, t: TaskId, n: NodeId, status: TaskStatus)
    requires Inv(db) && t in db.tasks && db.tasks[t].status == Running && db.tasks[t].node == n
    requires status in {Succeeded, Failed}
    ensures var r := ReportStatus(db, db.clock + 1, t, n, status, true);
            r.Some? && t in r.value.tasks && r.value.tasks[t].status == status
  {
    hide Inv, ReportStatus;
    Guarantees.ReportAcceptedIff(db, db.clock + 1, t, n, status, true);
    ReportTables(db, db.clock + 1, t, n, status, true);
  }

  lemma ReportDelivered(p: System, rid: Rid, n: NodeId, t: TaskId, status: TaskStatus)
    requires rid in p.requests && p.requests[rid] == Update(n, t, status)
    requires ReportStatus(p.db, p.db.clock + 1, t, n, status, true).Some?
    ensures Do(p, Deliver(rid, p.db.clock + 1, true, false, true, false)).db
         == ReportStatus(p.db, p.db.clock + 1, t, n, status, true).value
  {
    hide ReportStatus;
  }

  lemma ReportComesFromItsNode(p: System, rid: Rid, t: TaskId)
    requires SystemOk(p) && Belongs(p) && IsRunning(p, t)
    requires rid in p.requests && IsFinalReport(p.requests[rid], t)
    ensures p.db.tasks[t].node == p.requests[rid].node && p.requests[rid].status in {Succeeded, Failed}
  {
    hide Inv, Count, TaskLogOk;
    assert RequestOk(p, rid) && StageOk(p, t);
    assert StageBelongs(p, t);
  }

  ghost predicate SomeRunSettles(p: System, t: TaskId) {
    exists run: seq<Move> ::
      FitRun(p, run) && t in DoRun(p, run).db.tasks && DoRun(p, run).db.tasks[t].status != Running
  }

  lemma OneMove(p: System, m: Move)
    requires Fits(p, m)
    ensures FitRun(p, [m]) && DoRun(p, [m]) == Do(p, m)
  {
    hide Do, Fits;
    assert [m][1..] == [];
  }

  /** A move does not take a run away that would settle the task afterwards. */
  lemma SettlesLater(p: System, m: Move, t: TaskId)
    requires Fits(p, m) && SomeRunSettles(Do(p, m), t)
    ensures SomeRunSettles(p, t)
  {
    hide Do, Fits;
    var run :| FitRun(Do(p, m), run) && t in DoRun(Do(p, m), run).db.tasks
               && DoRun(Do(p, m), run).db.tasks[t].status != Running;
    assert ([m] + run)[0] == m && ([m] + run)[1..] == run;
    assert FitRun(p, [m] + run) && DoRun(p, [m] + run) == DoRun(Do(p, m), run);
  }

  lemma ReportSettles(p: System, rid: Rid, t: TaskId)
    requires SystemOk(p) && Belongs(p) && IsRunning(p, t)
    requires rid in p.requests && IsFinalReport(p.requests[rid], t)
    ensures SomeRunSettles(p, t)
  {
    var m := Deliver(rid, p.db.clock + 1, true, false, true, false);
    hide SystemOk, Belongs, Do, Fits;
    DeliverySettles(p, rid, t);
    OneMove(p, m);
    assert FitRun(p, [m]) && t in DoRun(p, [m]).db.tasks && DoRun(p, [m]).db.tasks[t].status != Running;
  }

  /** After a move of an agent that sends a final report, the report is on the network. */
  lemma ReportingSettles(p: System, m: Move, t: TaskId)
    requires SystemOk(p) && Belongs(p) && Fits(p, m) && IsRunning(p, t)
    requires Do(p, m).db == p.db
    requires exists rid | rid in Do(p, m).requests :: IsFinalReport(Do(p, m).requests[rid], t)
    ensures SomeRunSettles(p, t)
  {
    hide SystemOk, Belongs, Do, Fits;
    MoveOk(p, m);
    MoveBelongs(p, m);
    var rid :| rid in Do(p, m).requests && IsFinalReport(Do(p, m).requests[rid], t);
    ReportSettles(Do(p, m), rid, t);
    SettlesLater(p, m, t);
  }

  lemma ExecutingSettles(p: System, n: NodeId, t: TaskId)
    requires SystemOk(p) && Belongs(p) && IsRunning(p, t) && AgentOf(p, n) == Executing(t)
    ensures SomeRunSettles(p, t)
  {
    hide SystemOk, Belongs;
    assert IsFinalReport(Do(p, HostDone(n, true)).requests[p.nextRid], t);
    ReportingSettles(p, HostDone(n, true), t);
  }

  lemma GivingUpReports(p: System, n: NodeId, t: TaskId)
    requires AgentOk(p, n) && AgentOf(p, n).Reporting? && Carries(p, n, t)
    ensures var q := Do(p, GiveUp(n));
            q.db == p.db && exists rid | rid in q.requests :: IsFinalReport(q.requests[rid], t)
  {
    assert AgentOf(p, n).status != Running;
    assert IsFinalReport(Do(p, GiveUp(n)).requests[p.nextRid], t);
  }

  lemma StartIsReceived(p: System, n: NodeId, t: TaskId)
    requires AgentOf(p, n).Asking? && Carries(p, n, t)
    ensures AgentOf(Do(p, Receive(n)), n) == Executing(t) && Do(p, Receive(n)).db == p.db
  {
  }

  lemma AskingSettles(p: System, n: NodeId, t: TaskId)
    requires SystemOk(p) && Belongs(p) && IsRunning(p, t) && AgentOf(p, n).Asking? && Carries(p, n, t)
    ensures SomeRunSettles(p, t)
  {
    var m := Receive(n);
    assert Fits(p, m);
    StartIsReceived(p, n, t);
    hide SystemOk, Belongs, Do, Fits, Carries, SomeRunSettles;
    MoveOk(p, m);
    MoveBelongs(p, m);
    ExecutingSettles(Do(p, m), n, t);
    SettlesLater(p, m, t);
  }

  lemma CarriedSettles(p: System, n: NodeId, t: TaskId)
    requires SystemOk(p) && Belongs(p) && IsRunning(p, t) && Carries(p, n, t)
    ensures SomeRunSettles(p, t)
  {
    assert AgentOk(p, n) && Fits(p, GiveUp(n));
    hide SystemOk, Belongs, Do, Fits, SomeRunSettles;
    match AgentOf(p, n)
    case Executing(_) => ExecutingSettles(p, n, t);
    case Reporting(_, _, _, _) =>
      GivingUpReports(p, n, t);
      ReportingSettles(p, GiveUp(n), t);
    case Asking(_, _) => AskingSettles(p, n, t);
  }

  /**
   A running task can still come to an end exactly while an agent carries it or a final report of it is on the
   network; once neither is so, it shows Running in every run, whatever anybody sends.
   */
  lemma RunningSettlesIff(p: System, t: TaskId)
    requires Reachable(p) && IsRunning(p, t)
    ensures SomeRunSettles(p, t) <==> CanSettle(p, t)
    ensures !CanSettle(p, t) ==> forall run | FitRun(p, run) :: IsRunning(DoRun(p, run), t)
  {
    ReachableBelongs(p);
    hide SystemOk, Belongs, Carries, IsFinalReport;
    if CanSettle(p, t) {
      if n :| Carries(p, n, t) {
        CarriedSettles(p, n, t);
      } else {
        var rid :| rid in p.requests && IsFinalReport(p.requests[rid], t);
        ReportSettles(p, rid, t);
      }
    } else {
      forall run | FitRun(p, run)
        ensures IsRunning(DoRun(p, run), t)
      {
        StuckForever(p, run, t);
      }
    }
  }

  /** While one agent is at work on a task, nobody else carries it and nobody has reported it. */
  lemma OnlyOneCarries(p: System, n: NodeId, t: TaskId)
    requires SystemOk(p) && Reachable(p) && AgentOf(p, n) == Executing(t)
    ensures IsRunning(p, t)
    ensures forall k | k != n :: !Carries(p, k, t)
    ensures forall rid | rid in p.requests :: !IsFinalReport(p.requests[rid], t)
  {
    hide Inv, Reachable;
    OneExecutor(p, n, n);
    assert AgentOk(p, n);
    forall k | k != n
      ensures !Carries(p, k, t)
    {
      assert AgentOk(p, k);
      if AgentOf(p, k) == Executing(t) {
        OneExecutor(p, k, n);
      }
    }
    forall rid | rid in p.requests
      ensures !IsFinalReport(p.requests[rid], t)
    {
      assert RequestOk(p, rid);
    }
  }

  lemma RestingIsStuck(p: System, n: NodeId, t: TaskId)
    requires IsRunning(p, t) && forall k | k != n :: !Carries(p, k, t)
    requires forall rid | rid in p.requests :: !IsFinalReport(p.requests[rid], t)
    ensures Stuck(Goto(p, n, Resting), t)
  {
    var q := Goto(p, n, Resting);
    forall k
      ensures !Carries(q, k, t)
    {
      assert k != n ==> !Carries(p, k, t);
    }
  }

  /** An agent that restarts during host work leaves its task Running for good. */
  lemma RestartStrands(p: System, n: NodeId, t: TaskId)
    requires Reachable(p) && AgentOf(p, n) == Executing(t)
    ensures IsRunning(p, t) && Stuck(Do(p, Restart(n)), t)
    ensures !SomeRunSettles(Do(p, Restart(n)), t)
  {
    assert Fits(p, Restart(n)) && Do(p, Restart(n)) == Goto(p, n, Resting);
    hide *;
    ReachableOk(p);
    OnlyOneCarries(p, n, t);
    RestingIsStuck(p, n, t);
    var q := Do(p, Restart(n));
    MoveOk(p, Restart(n));
    forall run | FitRun(q, run)
      ensures Stuck(DoRun(q, run), t)
    {
      StuckForever(q, run, t);
    }
    NoRunSettles(q, t);
  }

  lemma NoRunSettles(q: System, t: TaskId)
    requires forall run | FitRun(q, run) :: Stuck(DoRun(q, run), t)
    ensures !SomeRunSettles(q, t)
  {
  }
}
