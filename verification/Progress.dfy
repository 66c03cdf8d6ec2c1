/**
 What the system can still come to: from every reachable system, a task that an agent holds can run, succeed and
 fail, and so can every pending task of a scheduled node.
 */
module Progress {
  import opened Wrappers
  import opened Tasks
  import opened Database
  import opened Invariants
  import Guarantees
  import Requests
  import opened Protocol
  import opened Settling

  /** Some run leads from one system to another. */
  ghost predicate Leads(p: System, q: System) {
    exists run: seq<Move> :: FitRun(p, run) && DoRun(p, run) == q
  }

  ghost predicate StatusIs(p: System, t: TaskId, status: TaskStatus) {
    t in p.db.tasks && p.db.tasks[t].status == status
  }

  /** Some run brings the task to this status. */
  ghost predicate CanCome(p: System, t: TaskId, status: TaskStatus) {
    exists q :: Leads(p, q) && StatusIs(q, t, status)
  }

  /** What every run keeps. */
  ghost predicate Sound(p: System) { SystemOk(p) && Belongs(p) }

  lemma {:induction false} RunsJoin(p: System, run: seq<Move>, more: seq<Move>)
    requires FitRun(p, run) && FitRun(DoRun(p, run), more)
    ensures FitRun(p, run + more) && DoRun(p, run + more) == DoRun(DoRun(p, run), more)
    decreases |run|
  {
    hide Do, Fits;
    if run == [] {
      assert run + more == more;
    } else {
      RunsJoin(Do(p, run[0]), run[1..], more);
      assert (run + more)[0] == run[0] && (run + more)[1..] == run[1..] + more;
    }
  }

  lemma Through(p: System, q: System, r: System)
    requires Leads(p, q) && Leads(q, r)
    ensures Leads(p, r)
  {
    hide FitRun, DoRun;
    var run :| FitRun(p, run) && DoRun(p, run) == q;
    var more :| FitRun(q, more) && DoRun(q, more) == r;
    RunsJoin(p, run, more);
    assert FitRun(p, run + more) && DoRun(p, run + more) == r;
  }

  lemma Step(p: System, m: Move)
    requires Sound(p) && Fits(p, m)
    ensures Sound(Do(p, m)) && Leads(p, Do(p, m))
  {
    hide SystemOk, Belongs, Do, Fits, FitRun, DoRun;
    MoveOk(p, m);
    MoveBelongs(p, m);
    OneMove(p, m);
  }

  /** A request that is delivered once, handled and answered. */
  function Delivered(p: System, rid: Rid): Move { Deliver(rid, p.db.clock + 1, true, false, false, false) }

  lemma DeliveredFits(p: System, rid: Rid)
    ensures Fits(p, Delivered(p, rid))
  {
  }

  // ----- From holding to the end -----

  /** An agent has only a task of its own node, and what it executes is running. */
  lemma OwnTask(p: System, n: NodeId, t: TaskId)
    requires Sound(p) && (AgentOf(p, n) == Holding(t) || AgentOf(p, n) == Executing(t)) && t in p.db.tasks
    ensures p.db.tasks[t].node == n
    ensures AgentOf(p, n) == Executing(t) ==> p.db.tasks[t].status == Running
  {
    hide Inv, Count, TaskLogOk;
    assert AgentOk(p, n) && StageBelongs(p, t) && StageOk(p, t);
  }

  /** What the delivery of a report does that the handler accepts. */
  lemma AcceptedIsTold(p: System, rid: Rid, n: NodeId, t: TaskId, status: TaskStatus)
    requires rid in p.requests && p.requests[rid] == Update(n, t, status)
    requires ReportStatus(p.db, p.db.clock + 1, t, n, status, true).Some?
    ensures var q := Do(p, Delivered(p, rid));
            && q.db == ReportStatus(p.db, p.db.clock + 1, t, n, status, true).value
            && q.agents == p.agents && rid in q.replies && q.replies[rid] == Accepted
  {
    hide ReportStatus;
  }

  lemma ReportIsAccepted(db: Db, n: NodeId, t: TaskId, status: TaskStatus)
    requires Inv(db) && t in db.tasks && db.tasks[t].node == n
    requires if status == Running then db.tasks[t].status == Assigned
             else (status == Succeeded || status == Failed) && db.tasks[t].status == Running
    ensures var r := ReportStatus(db, db.clock + 1, t, n, status, true);
            r.Some? && t in r.value.tasks && r.value.tasks[t].status == status
  {
    hide Inv, ReportStatus;
    Guarantees.ReportAcceptedIff(db, db.clock + 1, t, n, status, true);
    Requests.ReportMakes(db, db.clock + 1, t, n, status, true);
  }

  lemma SoundInv(p: System)
    requires Sound(p)
    ensures Inv(p.db)
  {
  }

  lemma ShowsStatus(p: System, t: TaskId, status: TaskStatus)
    requires t in p.db.tasks && p.db.tasks[t].status == status
    ensures StatusIs(p, t, status)
  {
  }

  /** A report the master must accept is accepted, and its sender is told. */
  lemma ReportArrives(p: System, rid: Rid, n: NodeId, t: TaskId, status: TaskStatus)
    requires Sound(p) && rid in p.requests && p.requests[rid] == Update(n, t, status)
    requires t in p.db.tasks && p.db.tasks[t].node == n
    requires if status == Running then p.db.tasks[t].status == Assigned
             else (status == Succeeded || status == Failed) && p.db.tasks[t].status == Running
    ensures var q := Do(p, Delivered(p, rid));
            && Sound(q) && Leads(p, q) && q.agents == p.agents && StatusIs(q, t, status)
            && rid in q.replies && q.replies[rid] == Accepted
  {
    hide *;
    DeliveredFits(p, rid);
    Step(p, Delivered(p, rid));
    SoundInv(p);
    ReportIsAccepted(p.db, n, t, status);
    AcceptedIsTold(p, rid, n, t, status);
    ShowsStatus(Do(p, Delivered(p, rid)), t, status);
  }

  /** What an agent's next move sends. */
  lemma AskSends(p: System, n: NodeId, t: TaskId)
    requires AgentOf(p, n) == Holding(t)
    ensures var q := Do(p, AskRunning(n));
            && Fits(p, AskRunning(n)) && q.db == p.db && AgentOf(q, n) == Asking(t, p.nextRid)
            && p.nextRid in q.requests && q.requests[p.nextRid] == Update(n, t, Running)
  {
  }

  lemma DoneSends(p: System, n: NodeId, t: TaskId, ok: bool)
    requires AgentOf(p, n) == Executing(t)
    ensures var q := Do(p, HostDone(n, ok));
            && Fits(p, HostDone(n, ok)) && q.db == p.db
            && p.nextRid in q.requests && q.requests[p.nextRid] == Update(n, t, if ok then Succeeded else Failed)
  {
  }

  lemma WorkStarts(p: System, n: NodeId, t: TaskId, rid: Rid)
    requires AgentOf(p, n) == Asking(t, rid) && rid in p.replies && p.replies[rid] == Accepted
    ensures Fits(p, Receive(n)) && AgentOf(Do(p, Receive(n)), n) == Executing(t) && Do(p, Receive(n)).db == p.db
  {
  }

  /** The agent asks, the master agrees, and the work starts. */
  lemma HeldStarts(p: System, n: NodeId, t: TaskId) returns (q: System)
    requires Sound(p) && AgentOf(p, n) == Holding(t) && StatusIs(p, t, Assigned)
    ensures Sound(q) && Leads(p, q) && AgentOf(q, n) == Executing(t) && StatusIs(q, t, Running)
  {
    hide Sound, Leads, Do, Fits;
    OwnTask(p, n, t);
    AskSends(p, n, t);
    Step(p, AskRunning(n));
    var asked := Do(p, AskRunning(n));
    ReportArrives(asked, p.nextRid, n, t, Running);
    var agreed := Do(asked, Delivered(asked, p.nextRid));
    Through(p, asked, agreed);
    WorkStarts(agreed, n, t, p.nextRid);
    Step(agreed, Receive(n));
    q := Do(agreed, Receive(n));
    Through(p, agreed, q);
  }

  /** The work ends either way, and the master shows it. */
  lemma ExecutingEnds(p: System, n: NodeId, t: TaskId, ok: bool)
    requires Sound(p) && AgentOf(p, n) == Executing(t) && StatusIs(p, t, Running)
    ensures CanCome(p, t, if ok then Succeeded else Failed)
  {
    hide Sound, Leads, Do, Fits;
    OwnTask(p, n, t);
    DoneSends(p, n, t, ok);
    Step(p, HostDone(n, ok));
    var done := Do(p, HostDone(n, ok));
    ReportArrives(done, p.nextRid, n, t, if ok then Succeeded else Failed);
    Through(p, done, Do(done, Delivered(done, p.nextRid)));
  }

  /**
   A task that is assigned and held by an agent can run: some run brings it to Running with that agent at work, and
   from there one run ends in success and another in failure.
   */
  lemma HeldTaskCanEnd(p: System, n: NodeId, t: TaskId)
    requires Reachable(p) && AgentOf(p, n) == Holding(t) && StatusIs(p, t, Assigned)
    ensures exists q :: Leads(p, q) && AgentOf(q, n) == Executing(t) && StatusIs(q, t, Running)
                        && CanCome(q, t, Succeeded) && CanCome(q, t, Failed)
  {
    ReachableBelongs(p);
    hide Reachable, Leads, CanCome;
    assert Sound(p);
    hide Sound;
    var q := HeldStarts(p, n, t);
    ExecutingEnds(q, n, t, true);
    ExecutingEnds(q, n, t, false);
  }

  // ----- From pending to holding -----

  ghost function PendingOn(db: Db, n: NodeId): set<TaskId> {
    set t | t in db.tasks && db.tasks[t].node == n && db.tasks[t].status == Pending
  }

  predicate Scheduled(db: Db, n: NodeId) { n in db.nodes && db.nodes[n].schedulingEnabled }

  lemma PollIsAnswered(p: System, rid: Rid, n: NodeId)
    requires rid in p.requests && p.requests[rid] == Poll(n)
    ensures var q := Do(p, Delivered(p, rid));
            && q.db == PollTask(p.db, p.db.clock + 1, n).0 && q.agents == p.agents
            && rid in q.replies && q.replies[rid] == Offer(PollTask(p.db, p.db.clock + 1, n).1)
  {
    hide PollTask;
  }

  lemma PollFinds(db: Db, n: NodeId) returns (t: TaskId)
    requires Inv(db) && Scheduled(db, n) && PendingOn(db, n) != {}
    ensures t in PendingOn(db, n) && t in db.tasks
    ensures PollTask(db, db.clock + 1, n)
         == (db.(tasks := db.tasks[t := db.tasks[t].(status := Assigned)], clock := db.clock + 1), Some(t))
  {
    hide Inv, PollTask;
    var u :| u in PendingOn(db, n);
    Requests.PollMakes(db, db.clock + 1, n);
    t := PollTask(db, db.clock + 1, n).1.value;
  }

  /** A poll that is delivered hands out a pending task, if the node is scheduled and has one. */
  lemma PollArrives(p: System, rid: Rid, n: NodeId) returns (t: TaskId)
    requires Sound(p) && rid in p.requests && p.requests[rid] == Poll(n)
    requires Scheduled(p.db, n) && PendingOn(p.db, n) != {}
    ensures var q := Do(p, Delivered(p, rid));
            && Sound(q) && Leads(p, q) && q.agents == p.agents && t in PendingOn(p.db, n) && t in p.db.tasks
            && q.db == p.db.(tasks := p.db.tasks[t := p.db.tasks[t].(status := Assigned)], clock := p.db.clock + 1)
            && rid in q.replies && q.replies[rid] == Offer(Some(t))
  {
    hide *;
    DeliveredFits(p, rid);
    Step(p, Delivered(p, rid));
    SoundInv(p);
    t := PollFinds(p.db, n);
    PollIsAnswered(p, rid, n);
  }

  lemma OfferReceived(p: System, n: NodeId, t: TaskId, rid: Rid)
    requires AgentOf(p, n) == Polling(rid) && rid in p.replies && p.replies[rid] == Offer(Some(t))
    ensures Fits(p, Receive(n)) && AgentOf(Do(p, Receive(n)), n) == Holding(t) && Do(p, Receive(n)).db == p.db
  {
  }

  lemma StartsAgain(p: System, n: NodeId)
    ensures var q := Do(p, Restart(n));
            Fits(p, Restart(n)) && AgentOf(q, n) == Resting && q.db == p.db
  {
  }

  lemma PollIsSent(p: System, n: NodeId)
    requires AgentOf(p, n) == Resting
    ensures var q := Do(p, SendPoll(n));
            && Fits(p, SendPoll(n)) && AgentOf(q, n) == Polling(p.nextRid) && q.db == p.db
            && p.nextRid in q.requests && q.requests[p.nextRid] == Poll(n)
  {
  }

  /** An agent, wherever it is, can start again, poll, and come to hold a pending task of its node. */
  lemma AgentTakes(p: System, n: NodeId) returns (q: System, t: TaskId)
    requires Sound(p) && Scheduled(p.db, n) && PendingOn(p.db, n) != {}
    ensures Sound(q) && Leads(p, q) && t in PendingOn(p.db, n) && t in p.db.tasks && AgentOf(q, n) == Holding(t)
    ensures q.db == p.db.(tasks := p.db.tasks[t := p.db.tasks[t].(status := Assigned)], clock := p.db.clock + 1)
  {
    hide Sound, Leads, PendingOn, Scheduled, Do, Fits;
    StartsAgain(p, n);
    Step(p, Restart(n));
    var rested := Do(p, Restart(n));
    PollIsSent(rested, n);
    Step(rested, SendPoll(n));
    var polled := Do(rested, SendPoll(n));
    Through(p, rested, polled);
    var rid := rested.nextRid;
    t := PollArrives(polled, rid, n);
    var offered := Do(polled, Delivered(polled, rid));
    Through(p, polled, offered);
    OfferReceived(offered, n, t, rid);
    Step(offered, Receive(n));
    q := Do(offered, Receive(n));
    Through(p, offered, q);
  }

  lemma LeadsFurther(p: System, q: System, t: TaskId, status: TaskStatus)
    requires Leads(p, q) && CanCome(q, t, status)
    ensures CanCome(p, t, status)
  {
    hide Leads;
    var r :| Leads(q, r) && StatusIs(r, t, status);
    Through(p, q, r);
  }

  /** Whatever is in front of a pending task in its node's queue is handed out first, and then its turn comes. */
  lemma {:induction false} PendingEnds(p: System, n: NodeId, t: TaskId, ok: bool)
    requires Sound(p) && Scheduled(p.db, n) && t in PendingOn(p.db, n)
    ensures CanCome(p, t, if ok then Succeeded else Failed)
    decreases |PendingOn(p.db, n)|
  {
    hide Sound, Leads, CanCome;
    var status := if ok then Succeeded else Failed;
    var q, u := AgentTakes(p, n);
    if u == t {
      var r := HeldStarts(q, n, t);
      ExecutingEnds(r, n, t, ok);
      LeadsFurther(q, r, t, status);
    } else {
      assert PendingOn(q.db, n) == PendingOn(p.db, n) - {u};
      PendingEnds(q, n, t, ok);
    }
    LeadsFurther(p, q, t, status);
  }

  /**
   No pending task is out of reach: as long as its node is scheduled, from every reachable system, whatever its
   agent is doing and whatever is queued before it, some run ends the task in success and another in failure.
   */
  lemma EveryPendingTaskCanEnd(p: System, t: TaskId)
    requires Reachable(p) && t in p.db.tasks && p.db.tasks[t].status == Pending
    requires p.db.tasks[t].node in p.db.nodes && p.db.nodes[p.db.tasks[t].node].schedulingEnabled
    ensures CanCome(p, t, Succeeded) && CanCome(p, t, Failed)
  {
    ReachableBelongs(p);
    hide Reachable, CanCome;
    assert Sound(p);
    hide Sound;
    PendingEnds(p, p.db.tasks[t].node, t, true);
    PendingEnds(p, p.db.tasks[t].node, t, false);
  }
}
