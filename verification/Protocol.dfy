/**
 The agent loop and the master joined by a network that may delay, lose or repeat any request and
 lose any reply. The master is the whole master: between any two agent steps administrators may send anything.
 An agent may also stop at any point and start again from the top of its loop.

 `stages` records, per task, how far its one hand-out has come. It is history: no step looks at it.
 `log` is what can be observed: host work starting and ending, and accepted admin cancellations.
 */
module Protocol {
  import opened Wrappers
  import opened Tasks
  import opened Database
  import opened Invariants

  const TERMINAL_STATUS_UPDATE_ATTEMPTS := 3

  type Rid = nat

  datatype Request =
    | Poll(node: NodeId)
    | Update(node: NodeId, task: TaskId, status: TaskStatus)

  datatype Reply = Offer(task: Option<TaskId>) | Accepted | Refused

  /** Where an agent is in `run_once`. */
  datatype Agent =
    | Resting
    | Polling(rid: Rid)
    | Holding(task: TaskId)
    | Asking(task: TaskId, rid: Rid)
    | Executing(task: TaskId)
    | Reporting(task: TaskId, status: TaskStatus, attempt: nat, rid: Rid)

  datatype Stage =
    | Offered(rid: Rid)
    | Held(node: NodeId)
    | Asked(node: NodeId, rid: Rid)
    | Started(node: NodeId)
    | Finished(node: NodeId, ok: bool)
    | Rejected(node: NodeId)

  datatype Event = HostStarted(task: TaskId) | HostFinished(task: TaskId, ok: bool) | AdminCanceled(task: TaskId)

  datatype System = System(
    db: Db,
    agents: map<NodeId, Agent>,
    requests: map<Rid, Request>,
    replies: map<Rid, Reply>,
    nextRid: Rid,
    stages: map<TaskId, Stage>,
    log: seq<Event>)

  function AgentOf(p: System, n: NodeId): Agent {
    if n in p.agents then p.agents[n] else Resting
  }

  datatype Move =
    | Admin(s: Step)
    | SendPoll(node: NodeId)
    | Deliver(rid: Rid, now: int, messageOk: bool, turnedAway: bool, replyLost: bool, again: bool)
    | Lose(rid: Rid)
    | Receive(node: NodeId)
    | GiveUp(node: NodeId)
    | Abandon(node: NodeId)
    | FailValidation(node: NodeId)
    | AskRunning(node: NodeId)
    | HostDone(node: NodeId, ok: bool)
    | Restart(node: NodeId)

  /** Requests of agents reach the master through `Deliver` only, and time moves on. */
  predicate Fits(p: System, m: Move) {
    match m
    case Admin(s) => !s.PollStep? && !s.ReportStep? && Fair(p.db, s)
    case Deliver(_, now, _, _, _, _) => now > p.db.clock
    case _ => true
  }

  function Goto(p: System, n: NodeId, a: Agent): System {
    p.(agents := p.agents[n := a])
  }

  /** Sends a request and waits for its reply at the place `a(rid)` the caller gives. */
  function Send(p: System, r: Request): System {
    p.(requests := p.requests[p.nextRid := r], nextRid := p.nextRid + 1)
  }

  ghost function OnAdmin(p: System, s: Step): System {
    var canceled := s.CancelStep? && Commits(p.db, s).Some?;
    p.(db := After(p.db, s), log := if canceled then p.log + [AdminCanceled(s.target)] else p.log)
  }

  /**
   A request reaches the master. With `again` the network keeps a copy and may deliver it once more: the
   nonces that should stop that are not relied on. The request may be turned away before the handler runs,
   and the reply may be lost whatever happened.
   */
  ghost function OnDeliver(p: System, rid: Rid, now: int, messageOk: bool, turnedAway: bool, replyLost: bool,
                           again: bool): System
    requires rid in p.requests
  {
    var p0 := Taken(p, rid, again);
    if turnedAway then Respond(p0, rid, Refused, replyLost)
    else match p.requests[rid]
      case Poll(n) =>
        var (db', picked) := PollTask(p.db, now, n);
        var stages := if picked.Some? then p.stages[picked.value := Offered(rid)] else p.stages;
        Respond(p0.(db := db', stages := stages), rid, Offer(picked), replyLost)
      case Update(n, t, status) =>
        match ReportStatus(p.db, now, t, n, status, messageOk)
        case Some(db') => Respond(p0.(db := db'), rid, Accepted, replyLost)
        case None => Respond(p0, rid, Refused, replyLost)
  }

  function Taken(p: System, rid: Rid, again: bool): System {
    if again then p else p.(requests := p.requests - {rid})
  }

  ghost function Respond(p: System, rid: Rid, reply: Reply, lost: bool): System {
    if lost then p else p.(replies := p.replies[rid := reply])
  }

  /** Sends a terminal status, as the first or a further attempt. */
  ghost function Report(p: System, n: NodeId, t: TaskId, status: TaskStatus, attempt: nat): System {
    Goto(Send(p, Update(n, t, status)), n, Reporting(t, status, attempt, p.nextRid))
  }

  /** `update_terminal_task_status` after a failed attempt: three in all. */
  ghost function NextAttempt(p: System, n: NodeId, a: Agent): System
    requires a.Reporting?
  {
    if a.attempt < TERMINAL_STATUS_UPDATE_ATTEMPTS then Report(p, n, a.task, a.status, a.attempt + 1)
    else Goto(p, n, Resting)
  }

  ghost function OnReceive(p: System, n: NodeId): System {
    match AgentOf(p, n)
    case Polling(rid) =>
      if rid !in p.replies then p
      else
        var p0 := p.(replies := p.replies - {rid});
        (match p.replies[rid]
         case Offer(Some(t)) => Goto(p0.(stages := p.stages[t := Held(n)]), n, Holding(t))
         case _ => Goto(p0, n, Resting))
    case Asking(t, rid) =>
      if rid !in p.replies then p
      else
        var p0 := p.(replies := p.replies - {rid});
        if p.replies[rid] == Accepted
        then Goto(p0.(stages := p.stages[t := Started(n)], log := p.log + [HostStarted(t)]), n, Executing(t))
        else Goto(p0, n, Resting)
    case Reporting(t, status, attempt, rid) =>
      if rid !in p.replies then p
      else
        var p0 := p.(replies := p.replies - {rid});
        if p.replies[rid] == Accepted then Goto(p0, n, Resting) else NextAttempt(p0, n, AgentOf(p, n))
    case _ => p
  }

  /** The agent stops waiting for a reply; the request may still arrive later. */
  ghost function OnGiveUp(p: System, n: NodeId): System {
    match AgentOf(p, n)
    case Polling(_) => Goto(p, n, Resting)
    case Asking(_, _) => Goto(p, n, Resting)
    case Reporting(_, _, _, _) => NextAttempt(p, n, AgentOf(p, n))
    case _ => p
  }

  ghost function Do(p: System, m: Move): System {
    match m
    case Admin(s) => OnAdmin(p, s)
    case SendPoll(n) =>
      if AgentOf(p, n).Resting? then Goto(Send(p, Poll(n)), n, Polling(p.nextRid)) else p
    case Deliver(rid, now, ok, away, lost, again) =>
      if rid in p.requests then OnDeliver(p, rid, now, ok, away, lost, again) else p
    case Lose(rid) => p.(requests := p.requests - {rid})
    case Receive(n) => OnReceive(p, n)
    case GiveUp(n) => OnGiveUp(p, n)
    case Abandon(n) => if AgentOf(p, n).Holding? then Goto(p, n, Resting) else p
    case FailValidation(n) =>
      if AgentOf(p, n).Holding? then
        var t := AgentOf(p, n).task;
        Report(p.(stages := p.stages[t := Rejected(n)]), n, t, Failed, 1)
      else p
    case AskRunning(n) =>
      if AgentOf(p, n).Holding? then
        var t := AgentOf(p, n).task;
        Goto(Send(p.(stages := p.stages[t := Asked(n, p.nextRid)]), Update(n, t, Running)), n, Asking(t, p.nextRid))
      else p
    case HostDone(n, ok) =>
      if AgentOf(p, n).Executing? then
        var t := AgentOf(p, n).task;
        Report(p.(stages := p.stages[t := Finished(n, ok)], log := p.log + [HostFinished(t, ok)]),
               n, t, if ok then Succeeded else Failed, 1)
      else p
    case Restart(n) => Goto(p, n, Resting)
  }

  ghost predicate FitRun(p: System, run: seq<Move>)
    decreases |run|
  {
    run != [] ==> Fits(p, run[0]) && FitRun(Do(p, run[0]), run[1..])
  }

  ghost function DoRun(p: System, run: seq<Move>): System
    decreases |run|
  {
    if run == [] then p else DoRun(Do(p, run[0]), run[1..])
  }

  ghost function Initial(): System {
    System(Empty(), map[], map[], map[], 0, map[], [])
  }

  ghost predicate Reachable(p: System) {
    exists run :: FitRun(Initial(), run) && DoRun(Initial(), run) == p
  }

  // ----- The invariant -----

  /** The task status each stage allows. */
  predicate StageAllows(stage: Option<Stage>, status: TaskStatus) {
    match stage
    case None => status in {Pending, Canceled}
    case Some(Offered(_)) => status in {Assigned, Canceled}
    case Some(Held(_)) => status in {Assigned, Canceled}
    case Some(Asked(_, _)) => status in {Assigned, Canceled, Running}
    case Some(Started(_)) => status == Running
    case Some(Finished(_, ok)) => status == Running || status == (if ok then Succeeded else Failed)
    case Some(Rejected(_)) => status in {Assigned, Canceled, Failed}
  }

  ghost function StageOf(p: System, t: TaskId): Option<Stage> {
    if t in p.stages then Some(p.stages[t]) else None
  }

  /** The terminal status an agent may report from a stage. */
  predicate MayReport(stage: Option<Stage>, n: NodeId, status: TaskStatus) {
    match status
    case Succeeded => stage == Some(Finished(n, true))
    case Failed => stage == Some(Finished(n, false)) || stage == Some(Rejected(n))
    case _ => false
  }

  ghost predicate AgentOk(p: System, n: NodeId) {
    match AgentOf(p, n)
    case Resting => true
    case Polling(rid) => rid < p.nextRid
    case Holding(t) => StageOf(p, t) == Some(Held(n))
    case Asking(t, rid) => StageOf(p, t) == Some(Asked(n, rid)) && rid < p.nextRid
    case Executing(t) => StageOf(p, t) == Some(Started(n))
    case Reporting(t, status, attempt, rid) =>
      MayReport(StageOf(p, t), n, status) && 1 <= attempt <= TERMINAL_STATUS_UPDATE_ATTEMPTS && rid < p.nextRid
  }

  ghost predicate RequestOk(p: System, rid: Rid)
    requires rid in p.requests
  {
    && rid < p.nextRid
    && match p.requests[rid]
       case Poll(_) => true
       case Update(n, t, status) => MayBeUnderWay(StageOf(p, t), n, status, rid)
  }

  /** The stages in which a status update may be on the network; a copy of the first outlives its answer. */
  predicate MayBeUnderWay(stage: Option<Stage>, n: NodeId, status: TaskStatus, rid: Rid) {
    if status == Running then stage == Some(Asked(n, rid)) || HasStarted(stage) else MayReport(stage, n, status)
  }

  ghost predicate ReplyOk(p: System, rid: Rid)
    requires rid in p.replies
  {
    && rid < p.nextRid
    && match p.replies[rid]
       case Offer(Some(t)) => StageOf(p, t) == Some(Offered(rid))
       case _ => true
  }

  function Count(log: seq<Event>, e: Event): nat {
    if log == [] then 0 else (if log[|log| - 1] == e then 1 else 0) + Count(log[..|log| - 1], e)
  }

  predicate HasStarted(stage: Option<Stage>) {
    stage.Some? && (stage.value.Started? || stage.value.Finished?)
  }

  ghost predicate TaskLogOk(p: System, t: TaskId) {
    && Count(p.log, HostStarted(t)) == (if HasStarted(StageOf(p, t)) then 1 else 0)
    && (forall ok :: Count(p.log, HostFinished(t, ok))
          == (if StageOf(p, t).Some? && StageOf(p, t).value.Finished? && StageOf(p, t).value.ok == ok then 1 else 0))
    && (Count(p.log, AdminCanceled(t)) > 0 ==> t in p.db.tasks && p.db.tasks[t].status == Canceled)
  }

  ghost predicate StageOk(p: System, t: TaskId)
    requires t in p.db.tasks
  {
    && StageAllows(StageOf(p, t), p.db.tasks[t].status)
    && (StageOf(p, t).Some? && StageOf(p, t).value.Asked? ==>
          var n, rid := StageOf(p, t).value.node, StageOf(p, t).value.rid;
          && rid < p.nextRid
          && (rid in p.requests ==> p.requests[rid] == Update(n, t, Running))
          && (rid in p.replies && p.replies[rid] == Accepted ==> p.db.tasks[t].status == Running))
  }

  ghost predicate SystemOk(p: System) {
    && Inv(p.db)
    && Wired(p)
  }

  ghost predicate Wired(p: System) {
    && p.stages.Keys <= p.db.tasks.Keys
    && (forall t | t in p.db.tasks :: StageOk(p, t))
    && (forall n :: AgentOk(p, n))
    && (forall rid | rid in p.requests :: RequestOk(p, rid))
    && (forall rid | rid in p.replies :: ReplyOk(p, rid))
    && (forall t :: TaskLogOk(p, t))
  }

  lemma InitialOk()
    ensures SystemOk(Initial())
  {
    EmptyInv();
  }

  lemma CountSnoc(log: seq<Event>, x: Event, e: Event)
    ensures Count(log + [x], e) == Count(log, e) + (if x == e then 1 else 0)
  {
    assert (log + [x])[..|log|] == log;
  }

  lemma CountSnocAll(log: seq<Event>, x: Event)
    ensures forall e :: Count(log + [x], e) == Count(log, e) + (if x == e then 1 else 0)
  {
    forall e ensures Count(log + [x], e) == Count(log, e) + (if x == e then 1 else 0) {
      CountSnoc(log, x, e);
    }
  }

  // ----- Agent moves: one agent, one task's stage, at most one request sent or reply taken -----

  lemma QuietMove(p: System, n: NodeId, reply: set<Rid>)
    requires Wired(p)
    ensures Wired(Goto(p.(replies := p.replies - reply), n, Resting))
  {
    hide StageAllows, Count, MayReport;
    var q := Goto(p.(replies := p.replies - reply), n, Resting);
    forall m ensures AgentOk(q, m) {
      assert AgentOk(p, m);
    }
    forall rid | rid in q.requests ensures RequestOk(q, rid) {
      assert RequestOk(p, rid);
    }
    forall rid | rid in q.replies ensures ReplyOk(q, rid) {
      assert ReplyOk(p, rid);
    }
    forall t ensures TaskLogOk(q, t) {
      assert TaskLogOk(p, t);
    }
    forall t | t in q.db.tasks ensures StageOk(q, t) {
      assert StageOk(p, t);
    }
  }

  lemma NextRidIsNew(p: System)
    requires Wired(p)
    ensures p.nextRid !in p.requests && p.nextRid !in p.replies
  {
    assert p.nextRid in p.requests ==> RequestOk(p, p.nextRid);
    assert p.nextRid in p.replies ==> ReplyOk(p, p.nextRid);
  }

  lemma ReportMove(p: System, n: NodeId, t: TaskId, status: TaskStatus, attempt: nat, reply: set<Rid>)
    requires Wired(p) && MayReport(StageOf(p, t), n, status) && 1 <= attempt <= TERMINAL_STATUS_UPDATE_ATTEMPTS
    ensures Wired(Report(p.(replies := p.replies - reply), n, t, status, attempt))
  {
    hide StageAllows, Count;
    var q := Report(p.(replies := p.replies - reply), n, t, status, attempt);
    forall m ensures AgentOk(q, m) {
      assert AgentOk(p, m);
    }
    forall rid | rid in q.requests ensures RequestOk(q, rid) {
      NextRidIsNew(p);
      if rid in p.requests {
        assert RequestOk(p, rid);
      }
    }
    forall rid | rid in q.replies ensures ReplyOk(q, rid) {
      assert ReplyOk(p, rid);
    }
    forall u ensures TaskLogOk(q, u) {
      assert TaskLogOk(p, u);
    }
    forall u | u in q.db.tasks ensures StageOk(q, u) {
      assert StageOk(p, u);
    }
  }

  /** The system after one agent took a task one stage further. */
  function Moved(p: System, n: NodeId, t: TaskId, stage: Stage, agent: Agent, reply: set<Rid>,
                 events: seq<Event>): System {
    p.(agents := p.agents[n := agent], stages := p.stages[t := stage],
       replies := p.replies - reply, log := p.log + events)
  }

  /**
   The stages in which one agent alone speaks for a task and nothing about it is under way: moving on
   from there disturbs nobody.
   */
  lemma StageMove(p: System, n: NodeId, t: TaskId, stage: Stage, agent: Agent, reply: set<Rid>, events: seq<Event>)
    requires Wired(p) && t in p.stages
    requires (p.stages[t] in {Held(n), Started(n)} && reply == {})
             || (p.stages[t].Offered? && reply == {p.stages[t].rid} && reply <= p.replies.Keys)
             || (p.stages[t].Asked? && p.stages[t].node == n && reply == {p.stages[t].rid} && reply <= p.replies.Keys)
    requires !stage.Offered? && !stage.Asked?
    requires p.stages[t].Asked? || p.stages[t].Started? ==> HasStarted(Some(stage))
    requires t in p.db.tasks ==> StageAllows(Some(stage), p.db.tasks[t].status)
    requires AgentOk(Moved(p, n, t, stage, agent, reply, events), n)
    requires forall u :: TaskLogOk(Moved(p, n, t, stage, agent, reply, events), u)
    ensures Wired(Moved(p, n, t, stage, agent, reply, events))
  {
    hide StageAllows, Count, TaskLogOk;
    var q := Moved(p, n, t, stage, agent, reply, events);
    assert AgentOk(p, n);
    forall m ensures AgentOk(q, m) {
      assert AgentOk(p, m);
    }
    forall rid | rid in q.requests ensures RequestOk(q, rid) {
      assert RequestOk(p, rid);
    }
    forall rid | rid in q.replies ensures ReplyOk(q, rid) {
      assert ReplyOk(p, rid);
    }
    forall u | u in q.db.tasks ensures StageOk(q, u) {
      assert StageOk(p, u);
    }
  }

  lemma SameLog(p: System, q: System, u: TaskId)
    requires TaskLogOk(p, u) && q.log == p.log && q.db == p.db
    requires StageOf(p, u) == StageOf(q, u)
             || (!HasStarted(StageOf(p, u)) && !HasStarted(StageOf(q, u)))
    ensures TaskLogOk(q, u)
  {
    hide Count;
  }

  lemma ReceiveOffer(p: System, n: NodeId, rid: Rid, t: TaskId)
    requires SystemOk(p) && rid in p.replies && p.replies[rid] == Offer(Some(t))
    ensures Wired(Goto(p.(replies := p.replies - {rid}, stages := p.stages[t := Held(n)]), n, Holding(t)))
  {
    hide Inv, Count, TaskLogOk;
    assert ReplyOk(p, rid);
    assert StageOk(p, t);
    var q := Moved(p, n, t, Held(n), Holding(t), {rid}, []);
    forall u ensures TaskLogOk(q, u) {
      assert p.log + [] == p.log;
      SameLog(p, q, u);
    }
    StageMove(p, n, t, Held(n), Holding(t), {rid}, []);
    assert q == Goto(p.(replies := p.replies - {rid}, stages := p.stages[t := Held(n)]), n, Holding(t));
  }

  lemma ReceiveAccepted(p: System, n: NodeId)
    requires SystemOk(p) && AgentOf(p, n).Asking?
    requires var rid := AgentOf(p, n).rid; rid in p.replies && p.replies[rid] == Accepted
    ensures Wired(OnReceive(p, n))
  {
    hide Inv;
    assert AgentOk(p, n);
    var t, rid := AgentOf(p, n).task, AgentOf(p, n).rid;
    assert StageOk(p, t);
    var q := Moved(p, n, t, Started(n), Executing(t), {rid}, [HostStarted(t)]);
    forall u ensures TaskLogOk(q, u) {
      assert TaskLogOk(p, u);
      CountSnocAll(p.log, HostStarted(t));
    }
    StageMove(p, n, t, Started(n), Executing(t), {rid}, [HostStarted(t)]);
    assert q == OnReceive(p, n);
  }

  lemma FinishedLog(p: System, n: NodeId, t: TaskId, ok: bool)
    requires Wired(p) && t in p.stages && p.stages[t] == Started(n)
    ensures forall u :: TaskLogOk(Moved(p, n, t, Finished(n, ok), Resting, {}, [HostFinished(t, ok)]), u)
  {
    hide StageAllows, MayReport;
    var q := Moved(p, n, t, Finished(n, ok), Resting, {}, [HostFinished(t, ok)]);
    CountSnocAll(p.log, HostFinished(t, ok));
    hide Count;
    forall u ensures TaskLogOk(q, u) {
      assert TaskLogOk(p, u);
    }
  }

  lemma HostDoneMove(p: System, n: NodeId, ok: bool)
    requires SystemOk(p) && AgentOf(p, n).Executing?
    ensures Wired(Do(p, HostDone(n, ok)))
  {
    hide Inv;
    assert AgentOk(p, n);
    var t := AgentOf(p, n).task;
    assert StageOk(p, t);
    var q := Moved(p, n, t, Finished(n, ok), Resting, {}, [HostFinished(t, ok)]);
    FinishedLog(p, n, t, ok);
    var status := if ok then Succeeded else Failed;
    assert Do(p, HostDone(n, ok))
        == Report(p.(stages := p.stages[t := Finished(n, ok)], log := p.log + [HostFinished(t, ok)]), n, t, status, 1);
    hide Count, TaskLogOk, Do;
    StageMove(p, n, t, Finished(n, ok), Resting, {}, [HostFinished(t, ok)]);
    hide Report;
    ReportMove(q, n, t, status, 1, {});
    SameReport(q, p.(stages := p.stages[t := Finished(n, ok)], log := p.log + [HostFinished(t, ok)]), n, t, status);
  }

  lemma SameReport(q: System, p: System, n: NodeId, t: TaskId, status: TaskStatus)
    requires q == Goto(p.(replies := p.replies - {}), n, Resting)
    ensures Report(q.(replies := q.replies - {}), n, t, status, 1) == Report(p, n, t, status, 1)
  {
    assert p.replies - {} == p.replies;
    assert q.replies - {} == p.replies;
    assert q.agents[n := Reporting(t, status, 1, p.nextRid)] == p.agents[n := Reporting(t, status, 1, p.nextRid)];
  }

  lemma FailValidationMove(p: System, n: NodeId)
    requires SystemOk(p) && AgentOf(p, n).Holding?
    ensures Wired(Do(p, FailValidation(n)))
  {
    hide Inv, Count, TaskLogOk;
    assert AgentOk(p, n);
    var t := AgentOf(p, n).task;
    assert StageOk(p, t);
    var q := Moved(p, n, t, Rejected(n), Resting, {}, []);
    forall u ensures TaskLogOk(q, u) {
      assert p.log + [] == p.log;
      SameLog(p, q, u);
    }
    StageMove(p, n, t, Rejected(n), Resting, {}, []);
    ReportMove(q, n, t, Failed, 1, {});
    assert p.log + [] == p.log;
    SameReport(q, p.(stages := p.stages[t := Rejected(n)]), n, t, Failed);
  }

  lemma HeldMayAsk(n: NodeId, rid: Rid, status: TaskStatus)
    ensures StageAllows(Some(Held(n)), status) ==> StageAllows(Some(Asked(n, rid)), status)
  {
  }

  lemma AskRunningMove(p: System, n: NodeId)
    requires SystemOk(p) && AgentOf(p, n).Holding?
    ensures Wired(Do(p, AskRunning(n)))
  {
    hide Inv, Count, TaskLogOk, StageAllows;
    var t := AgentOf(p, n).task;
    var q := Do(p, AskRunning(n));
    NextRidIsNew(p);
    assert AgentOk(p, n);
    assert StageOk(p, t);
    HeldMayAsk(n, p.nextRid, p.db.tasks[t].status);
    assert q == Goto(Send(p.(stages := p.stages[t := Asked(n, p.nextRid)]), Update(n, t, Running)),
                     n, Asking(t, p.nextRid));
    hide Do;
    forall m ensures AgentOk(q, m) {
      assert AgentOk(p, m);
    }
    forall rid | rid in q.requests ensures RequestOk(q, rid) {
      if rid in p.requests {
        assert RequestOk(p, rid);
      }
    }
    forall rid | rid in q.replies ensures ReplyOk(q, rid) {
      assert ReplyOk(p, rid);
    }
    hide MayReport, MayBeUnderWay;
    forall u | u in q.db.tasks ensures StageOk(q, u) {
      assert StageOk(p, u);
    }
    forall u ensures TaskLogOk(q, u) {
      SameLog(p, q, u);
    }
  }

  lemma SendPollMove(p: System, n: NodeId)
    requires SystemOk(p) && AgentOf(p, n).Resting?
    ensures Wired(Do(p, SendPoll(n)))
  {
    hide Inv, Count, TaskLogOk, StageAllows;
    var q := Do(p, SendPoll(n));
    NextRidIsNew(p);
    forall m ensures AgentOk(q, m) {
      assert AgentOk(p, m);
    }
    forall rid | rid in q.requests ensures RequestOk(q, rid) {
      if rid in p.requests {
        assert RequestOk(p, rid);
      }
    }
    forall rid | rid in q.replies ensures ReplyOk(q, rid) {
      assert ReplyOk(p, rid);
    }
    forall u | u in q.db.tasks ensures StageOk(q, u) {
      assert StageOk(p, u);
    }
    forall u ensures TaskLogOk(q, u) {
      SameLog(p, q, u);
    }
  }

  // ----- The network and the master -----

  lemma LoseMove(p: System, rid: Rid)
    requires Wired(p)
    ensures Wired(p.(requests := p.requests - {rid}))
  {
    hide StageAllows, Count, TaskLogOk, MayReport;
    var q := p.(requests := p.requests - {rid});
    forall m ensures AgentOk(q, m) {
      assert AgentOk(p, m);
    }
    forall r | r in q.requests ensures RequestOk(q, r) {
      assert RequestOk(p, r);
    }
    forall r | r in q.replies ensures ReplyOk(q, r) {
      assert ReplyOk(p, r);
    }
    forall u | u in q.db.tasks ensures StageOk(q, u) {
      assert StageOk(p, u);
    }
    forall u ensures TaskLogOk(q, u) {
      SameLog(p, q, u);
    }
  }

  lemma RespondMove(p: System, rid: Rid, reply: Reply, lost: bool)
    requires Wired(p) && rid < p.nextRid
    requires reply.Offer? && reply.task.Some? ==> StageOf(p, reply.task.value) == Some(Offered(rid))
    requires reply == Accepted ==>
               forall t | t in p.db.tasks && StageOf(p, t).Some? && StageOf(p, t).value.Asked?
                          && StageOf(p, t).value.rid == rid :: p.db.tasks[t].status == Running
    ensures Wired(Respond(p, rid, reply, lost))
  {
    hide StageAllows, Count, TaskLogOk, MayReport;
    var q := Respond(p, rid, reply, lost);
    forall m ensures AgentOk(q, m) {
      assert AgentOk(p, m);
    }
    forall r | r in q.requests ensures RequestOk(q, r) {
      assert RequestOk(p, r);
    }
    forall r | r in q.replies ensures ReplyOk(q, r) {
      if r in p.replies {
        assert ReplyOk(p, r);
      }
    }
    forall u | u in q.db.tasks ensures StageOk(q, u) {
      assert StageOk(p, u);
    }
    forall u ensures TaskLogOk(q, u) {
      SameLog(p, q, u);
    }
  }

  /** One task of the master changes status. */
  lemma StatusMove(p: System, db': Db, t: TaskId, status: TaskStatus)
    requires Wired(p) && t in p.db.tasks && db'.tasks == p.db.tasks[t := p.db.tasks[t].(status := status)]
    requires StageAllows(StageOf(p, t), status)
    requires Count(p.log, AdminCanceled(t)) > 0 ==> status == Canceled
    requires p.db.tasks[t].status == Running ==> StageOf(p, t).Some? && !StageOf(p, t).value.Asked?
    ensures Wired(p.(db := db'))
  {
    hide StageAllows, Count, MayReport;
    var q := p.(db := db');
    forall m ensures AgentOk(q, m) {
      assert AgentOk(p, m);
    }
    forall r | r in q.requests ensures RequestOk(q, r) {
      assert RequestOk(p, r);
    }
    forall r | r in q.replies ensures ReplyOk(q, r) {
      assert ReplyOk(p, r);
    }
    forall u | u in q.db.tasks ensures StageOk(q, u) {
      assert StageOk(p, u);
    }
    forall u ensures TaskLogOk(q, u) {
      assert TaskLogOk(p, u);
    }
  }

  /** The master's tables change in some other way: the same tasks, or one new pending task. */
  lemma TablesMove(p: System, db': Db, t: TaskId)
    requires Wired(p)
    requires db'.tasks == p.db.tasks
             || (t !in p.db.tasks && t in db'.tasks && db'.tasks == p.db.tasks[t := db'.tasks[t]]
                 && db'.tasks[t].status == Pending)
    ensures Wired(p.(db := db'))
  {
    hide Count, MayReport;
    var q := p.(db := db');
    forall m ensures AgentOk(q, m) {
      assert AgentOk(p, m);
    }
    forall r | r in q.requests ensures RequestOk(q, r) {
      assert RequestOk(p, r);
    }
    forall r | r in q.replies ensures ReplyOk(q, r) {
      assert ReplyOk(p, r);
    }
    forall u | u in q.db.tasks ensures StageOk(q, u) {
      if u in p.db.tasks {
        assert StageOk(p, u);
      }
    }
    forall u ensures TaskLogOk(q, u) {
      assert TaskLogOk(p, u);
    }
  }

  /** The master hands a pending task out in the reply to a poll. */
  lemma ClaimMove(p: System, db': Db, rid: Rid, t: TaskId)
    requires Wired(p) && t in p.db.tasks && p.db.tasks[t].status == Pending && rid < p.nextRid
    requires db'.tasks == p.db.tasks[t := p.db.tasks[t].(status := Assigned)]
    ensures Wired(p.(db := db', stages := p.stages[t := Offered(rid)]))
  {
    hide Count, MayReport;
    var q := p.(db := db', stages := p.stages[t := Offered(rid)]);
    assert StageOk(p, t) && t !in p.stages;
    assert StageAllows(Some(Offered(rid)), Assigned);
    hide StageAllows;
    NobodySpeaksFor(p, t);
    forall m ensures AgentOk(q, m) {
      assert AgentOk(p, m);
    }
    forall r | r in q.requests ensures RequestOk(q, r) {
      assert RequestOk(p, r);
    }
    forall r | r in q.replies ensures ReplyOk(q, r) {
      assert ReplyOk(p, r);
    }
    forall u | u in q.db.tasks ensures StageOk(q, u) {
      assert StageOk(p, u);
    }
    forall u ensures TaskLogOk(q, u) {
      assert TaskLogOk(p, u);
    }
  }

  lemma NobodySpeaksFor(p: System, t: TaskId)
    requires Wired(p) && t !in p.stages
    ensures forall m :: AgentOf(p, m).Resting? || AgentOf(p, m).Polling? || AgentOf(p, m).task != t
    ensures forall r | r in p.requests && p.requests[r].Update? :: p.requests[r].task != t
  {
    forall m ensures AgentOf(p, m).Resting? || AgentOf(p, m).Polling? || AgentOf(p, m).task != t {
      assert AgentOk(p, m);
    }
    forall r | r in p.requests && p.requests[r].Update? ensures p.requests[r].task != t {
      assert RequestOk(p, r);
    }
  }

  lemma TakeMove(p: System, rid: Rid, again: bool)
    requires Wired(p)
    ensures Wired(Taken(p, rid, again))
  {
    hide Wired;
    LoseMove(p, rid);
  }

  lemma DeliverPoll(p: System, rid: Rid, now: int, lost: bool, again: bool)
    requires SystemOk(p) && rid in p.requests && p.requests[rid].Poll? && now > p.db.clock
    ensures forall ok :: SystemOk(OnDeliver(p, rid, now, ok, false, lost, again))
  {
    hide Inv, Wired, Respond, Commits;
    RequestFacts(p, rid);
    var n := p.requests[rid].node;
    var s := PollStep(now, n);
    var e := StepEffect(p.db, s);
    PollInv(p.db, now, n);
    var (db', picked) := PollTask(p.db, now, n);
    var p0 := Taken(p, rid, again);
    TakeMove(p, rid, again);
    PollTables(p.db, now, n);
    if picked.Some? {
      ClaimMove(p0, db', rid, picked.value);
      RespondMove(p0.(db := db', stages := p.stages[picked.value := Offered(rid)]), rid, Offer(picked), lost);
    } else {
      TablesMove(p0, db', 0);
      RespondMove(p0.(db := db'), rid, Offer(picked), lost);
    }
    hide PollTask;
    var stages := if picked.Some? then p.stages[picked.value := Offered(rid)] else p.stages;
    RespondKeepsDb(p0.(db := db', stages := stages), rid, Offer(picked), lost);
  }

  lemma PollTables(db: Db, now: int, n: NodeId)
    ensures var (db', picked) := PollTask(db, now, n);
            if picked.None? then db'.tasks == db.tasks
            else picked.value in db.tasks && db.tasks[picked.value].status == Pending
                 && db'.tasks == db.tasks[picked.value := db.tasks[picked.value].(status := Assigned)]
  {
    var (_, picked) := PollTask(db, now, n);
    if picked.Some? {
      assert IsNextForNode(db, n, picked.value);
    }
  }

  lemma RespondKeepsDb(p: System, rid: Rid, reply: Reply, lost: bool)
    ensures Respond(p, rid, reply, lost).db == p.db
  {
  }

  lemma RequestFacts(p: System, rid: Rid)
    requires Wired(p) && rid in p.requests
    ensures RequestOk(p, rid)
    ensures p.requests[rid].Update? && p.requests[rid].task in p.db.tasks ==> StageOk(p, p.requests[rid].task)
    ensures p.requests[rid].Update? ==> TaskLogOk(p, p.requests[rid].task)
  {
  }

  lemma ReportTables(db: Db, now: int, t: TaskId, n: NodeId, status: TaskStatus, ok: bool)
    requires Inv(db) && now > db.clock && ReportStatus(db, now, t, n, status, ok).Some?
    ensures t in db.tasks && ValidAgentTransition(db.tasks[t].status, status)
    ensures var db' := ReportStatus(db, now, t, n, status, ok).value;
            Inv(db') && db'.tasks == db.tasks[t := db.tasks[t].(status := status)]
  {
    hide Inv, ApplyTaskStatus;
    var e := ReportStepEffect(db, now, t, n, status, ok);
    EffectInv(db, ReportStatus(db, now, t, n, status, ok).value, now, e);
  }

  lemma DeliverUpdate(p: System, rid: Rid, now: int, ok: bool, lost: bool, again: bool)
    requires SystemOk(p) && rid in p.requests && p.requests[rid].Update? && now > p.db.clock
    ensures SystemOk(OnDeliver(p, rid, now, ok, false, lost, again))
  {
    hide Inv, Wired, Respond, ReportStatus, StageAllows, MayReport;
    RequestFacts(p, rid);
    var Update(n, t, status) := p.requests[rid];
    var p0 := Taken(p, rid, again);
    TakeMove(p, rid, again);
    var r := ReportStatus(p.db, now, t, n, status, ok);
    if r.Some? {
      ReportTables(p.db, now, t, n, status, ok);
      ReportedStage(StageOf(p, t), p.db.tasks[t].status, n, status, rid);
      assert StageOf(p0, t) == StageOf(p, t);
      StatusMove(p0, r.value, t, status);
      OnlyAsked(p, rid);
      RespondMove(p0.(db := r.value), rid, Accepted, lost);
      RespondKeepsDb(p0.(db := r.value), rid, Accepted, lost);
    } else {
      RespondMove(p0, rid, Refused, lost);
      RespondKeepsDb(p0, rid, Refused, lost);
    }
  }

  /** A request in flight agrees with the stage of its task, so its status is one the stage allows. */
  lemma ReportedStage(stage: Option<Stage>, before: TaskStatus, n: NodeId, status: TaskStatus, rid: Rid)
    requires StageAllows(stage, before) && ValidAgentTransition(before, status)
    requires MayBeUnderWay(stage, n, status, rid)
    ensures StageAllows(stage, status)
    ensures before != Canceled
    ensures before == Running ==> stage.Some? && !stage.value.Asked?
  {
  }

  lemma OnlyAsked(p: System, rid: Rid)
    requires Wired(p) && rid in p.requests && p.requests[rid].Update?
    ensures forall t | t in p.db.tasks && StageOf(p, t).Some? && StageOf(p, t).value.Asked?
                       && StageOf(p, t).value.rid == rid ::
              p.requests[rid].task == t && p.requests[rid].status == Running
  {
    forall t | t in p.db.tasks && StageOf(p, t).Some? && StageOf(p, t).value.Asked? && StageOf(p, t).value.rid == rid
      ensures p.requests[rid].task == t && p.requests[rid].status == Running
    {
      assert StageOk(p, t);
    }
  }

  lemma DeliverMove(p: System, rid: Rid, now: int, ok: bool, away: bool, lost: bool, again: bool)
    requires SystemOk(p) && rid in p.requests && now > p.db.clock
    ensures SystemOk(OnDeliver(p, rid, now, ok, away, lost, again))
  {
    hide Inv, Wired, Respond;
    if away {
      hide PollTask, ReportStatus;
      RequestFacts(p, rid);
      TakeMove(p, rid, again);
      var p0 := Taken(p, rid, again);
      RespondMove(p0, rid, Refused, lost);
      RespondKeepsDb(p0, rid, Refused, lost);
    } else if p.requests[rid].Poll? {
      DeliverPoll(p, rid, now, lost, again);
    } else {
      DeliverUpdate(p, rid, now, ok, lost, again);
    }
  }

  lemma AdminMove(p: System, s: Step)
    requires SystemOk(p) && Fits(p, Admin(s))
    ensures SystemOk(OnAdmin(p, s))
  {
    hide Inv, Wired, Commits, SettleEffect, QueueEffect, CreateEffect;
    StepInv(p.db, s);
    var e := StepEffect(p.db, s);
    var db' := After(p.db, s);
    hide After;
    AdminTables(p.db, db', s.now, e);
    if s.CancelStep? && Commits(p.db, s).Some? {
      CancelNeeds(p.db, s);
      CanceledLog(p, db', e.t);
    } else {
      TablesMove(p, db', if e.Idle? then 0 else e.t);
    }
  }

  lemma AdminTables(db: Db, db': Db, now: int, e: Effect)
    requires HasEffect(db, db', now, e) && !e.Claims?
    ensures e.Idle? ==> db'.tasks == db.tasks
    ensures e.Settles? ==> e.t in db.tasks && StatusChange(db.tasks[e.t].status, e.status)
                           && db'.tasks == db.tasks[e.t := db.tasks[e.t].(status := e.status)]
    ensures e.Queues? || e.Creates? ==>
              && e.t !in db.tasks && e.t in db'.tasks && db'.tasks == db.tasks[e.t := db'.tasks[e.t]]
              && db'.tasks[e.t].status == Pending
  {
  }

  lemma CancelNeeds(db: Db, s: Step)
    requires s.CancelStep? && Commits(db, s).Some?
    ensures s.target in db.tasks && AdminMayCancel(db.tasks[s.target].status)
  {
  }

  lemma CanceledLog(p: System, db': Db, t: TaskId)
    requires Wired(p) && t in p.db.tasks
    requires AdminMayCancel(p.db.tasks[t].status)
    requires db'.tasks == p.db.tasks[t := p.db.tasks[t].(status := Canceled)]
    ensures Wired(p.(db := db', log := p.log + [AdminCanceled(t)]))
  {
    hide Count, MayReport;
    assert StageOk(p, t);
    StatusMove(p, db', t, Canceled);
    var p1 := p.(db := db');
    var q := p1.(log := p.log + [AdminCanceled(t)]);
    CountSnocAll(p.log, AdminCanceled(t));
    forall m ensures AgentOk(q, m) {
      assert AgentOk(p1, m);
    }
    forall r | r in q.requests ensures RequestOk(q, r) {
      assert RequestOk(p1, r);
    }
    forall r | r in q.replies ensures ReplyOk(q, r) {
      assert ReplyOk(p1, r);
    }
    forall u | u in q.db.tasks ensures StageOk(q, u) {
      assert StageOk(p1, u);
    }
    forall u ensures TaskLogOk(q, u) {
      assert TaskLogOk(p1, u);
    }
  }

  lemma ReceiveMove(p: System, n: NodeId)
    requires SystemOk(p)
    ensures SystemOk(OnReceive(p, n))
  {
    hide Inv, StageAllows, MayReport, StageOk, TaskLogOk, RequestOk, ReplyOk;
    assert AgentOk(p, n);
    match AgentOf(p, n)
    case Polling(rid) =>
      if rid in p.replies {
        if p.replies[rid].Offer? && p.replies[rid].task.Some? {
          ReceiveOffer(p, n, rid, p.replies[rid].task.value);
        } else {
          QuietMove(p, n, {rid});
        }
      }
    case Asking(t, rid) =>
      if rid in p.replies {
        if p.replies[rid] == Accepted {
          ReceiveAccepted(p, n);
        } else {
          QuietMove(p, n, {rid});
        }
      }
    case Reporting(t, status, attempt, rid) =>
      if rid in p.replies {
        QuietMove(p, n, {rid});
        if p.replies[rid] != Accepted && attempt < TERMINAL_STATUS_UPDATE_ATTEMPTS {
          ReportMove(p, n, t, status, attempt + 1, {rid});
        }
      }
    case _ =>
  }

  lemma GiveUpMove(p: System, n: NodeId)
    requires SystemOk(p)
    ensures SystemOk(OnGiveUp(p, n))
  {
    hide Inv, StageAllows, MayReport, StageOk, TaskLogOk, RequestOk, ReplyOk;
    assert AgentOk(p, n);
    assert p.replies - {} == p.replies;
    QuietMove(p, n, {});
    if AgentOf(p, n).Reporting? && AgentOf(p, n).attempt < TERMINAL_STATUS_UPDATE_ATTEMPTS {
      var a := AgentOf(p, n);
      ReportMove(p, n, a.task, a.status, a.attempt + 1, {});
    }
  }

  /** Whatever happens next, in the master, on the network or in an agent, the system invariant stays. */
  lemma MoveOk(p: System, m: Move)
    requires SystemOk(p) && Fits(p, m)
    ensures SystemOk(Do(p, m))
  {
    hide Inv, Wired, OnAdmin, OnDeliver, OnReceive, OnGiveUp, Report, Send;
    match m
    case Admin(s) => AdminMove(p, s);
    case SendPoll(n) => if AgentOf(p, n).Resting? { SendPollMove(p, n); SameDb(p, m); }
    case Deliver(rid, now, ok, away, lost, again) =>
      if rid in p.requests { DeliverMove(p, rid, now, ok, away, lost, again); }
    case Lose(rid) => LoseMove(p, rid);
    case Receive(n) => ReceiveMove(p, n);
    case GiveUp(n) => GiveUpMove(p, n);
    case Abandon(n) => RestingMove(p, n);
    case FailValidation(n) => if AgentOf(p, n).Holding? { FailValidationMove(p, n); SameDb(p, m); }
    case AskRunning(n) => if AgentOf(p, n).Holding? { AskRunningMove(p, n); SameDb(p, m); }
    case HostDone(n, ok) => if AgentOf(p, n).Executing? { HostDoneMove(p, n, ok); SameDb(p, m); }
    case Restart(n) => RestingMove(p, n);
  }

  lemma RestingMove(p: System, n: NodeId)
    requires Wired(p)
    ensures Wired(Goto(p, n, Resting))
  {
    hide Wired;
    assert p.replies - {} == p.replies;
    QuietMove(p, n, {});
  }

  lemma SameDb(p: System, m: Move)
    requires m.SendPoll? || m.FailValidation? || m.AskRunning? || m.HostDone?
    ensures Do(p, m).db == p.db
  {
  }

  lemma {:induction false} RunOk(p: System, run: seq<Move>)
    requires SystemOk(p) && FitRun(p, run)
    ensures SystemOk(DoRun(p, run))
    decreases |run|
  {
    hide SystemOk, Do;
    if run != [] {
      MoveOk(p, run[0]);
      RunOk(Do(p, run[0]), run[1..]);
    }
  }

  lemma ReachableOk(p: System)
    requires Reachable(p)
    ensures SystemOk(p)
  {
    hide SystemOk;
    var run :| FitRun(Initial(), run) && DoRun(Initial(), run) == p;
    InitialOk();
    RunOk(Initial(), run);
  }

  // ----- What an operator can rely on -----

  /** Host work for a task starts at most once, over every run. */
  lemma HostWorkStartsAtMostOnce(p: System, t: TaskId)
    requires Reachable(p)
    ensures Count(p.log, HostStarted(t)) <= 1
    ensures Count(p.log, HostFinished(t, true)) + Count(p.log, HostFinished(t, false)) <= Count(p.log, HostStarted(t))
  {
    hide Count, Inv;
    ReachableOk(p);
    assert TaskLogOk(p, t);
  }

  /** A task an administrator canceled never has host work, before or after the cancellation. */
  lemma CanceledNeverRuns(p: System, t: TaskId)
    requires Reachable(p) && Count(p.log, AdminCanceled(t)) > 0
    ensures Count(p.log, HostStarted(t)) == 0
    ensures t in p.db.tasks && p.db.tasks[t].status == Canceled
  {
    hide Count, Inv;
    ReachableOk(p);
    assert TaskLogOk(p, t);
    assert StageOk(p, t);
  }

  /**
   The master shows Succeeded only for a task whose one execution returned Ok, and Failed only for one
   whose execution did not, in spite of lost replies and three attempts at the final report.
   */
  lemma ShownOutcomeIsTheOutcome(p: System, t: TaskId)
    requires Reachable(p) && t in p.db.tasks
    ensures p.db.tasks[t].status == Succeeded ==>
              && Count(p.log, HostStarted(t)) == 1
              && Count(p.log, HostFinished(t, true)) == 1 && Count(p.log, HostFinished(t, false)) == 0
    ensures p.db.tasks[t].status == Failed ==> Count(p.log, HostFinished(t, true)) == 0
    ensures p.db.tasks[t].status in {Pending, Assigned} ==> Count(p.log, HostStarted(t)) == 0
  {
    hide Count, Inv;
    ReachableOk(p);
    assert TaskLogOk(p, t);
    assert StageOk(p, t);
  }

  /** At any moment at most one agent is executing a task, and the master shows it Running. */
  lemma OneExecutor(p: System, m: NodeId, n: NodeId)
    requires Reachable(p)
    requires AgentOf(p, m).Executing? && AgentOf(p, n).Executing? && AgentOf(p, m).task == AgentOf(p, n).task
    ensures m == n
    ensures AgentOf(p, m).task in p.db.tasks && p.db.tasks[AgentOf(p, m).task].status == Running
  {
    hide Count, Inv;
    ReachableOk(p);
    assert AgentOk(p, m) && AgentOk(p, n);
    assert StageOk(p, AgentOf(p, m).task);
  }
}
