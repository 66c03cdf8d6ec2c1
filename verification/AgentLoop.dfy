/**
 The agent's loop as it is written: poll, check, mark running, execute, report with retries. Each method is
 proved to be a run of `Protocol` moves, whatever the network, the master and the other agents do between
 two of its steps; so what `Protocol` proves of every reachable system holds of this loop.
 */
module AgentLoop {
  import opened Tasks
  import opened Database
  import opened Protocol

  /** The agent a move belongs to. */
  predicate By(m: Move, n: NodeId) {
    match m
    case SendPoll(k) => k == n
    case Receive(k) => k == n
    case GiveUp(k) => k == n
    case Abandon(k) => k == n
    case FailValidation(k) => k == n
    case AskRunning(k) => k == n
    case HostDone(k, _) => k == n
    case Restart(k) => k == n
    case _ => false
  }

  /** Waits for the reply to a given attempt at a terminal report. */
  predicate Attempts(a: Agent, t: TaskId, status: TaskStatus, attempt: nat) {
    a.Reporting? && a.task == t && a.status == status && a.attempt == attempt
  }

  lemma OthersLeaveAgent(p: System, m: Move, n: NodeId)
    requires !By(m, n)
    ensures AgentOf(Do(p, m), n) == AgentOf(p, n)
  {
    hide Commits, After, PollTask, ReportStatus;
  }

  lemma {:induction false} RunSnoc(p: System, run: seq<Move>, m: Move)
    requires FitRun(p, run) && Fits(DoRun(p, run), m)
    ensures FitRun(p, run + [m]) && DoRun(p, run + [m]) == Do(DoRun(p, run), m)
    decreases |run|
  {
    hide Do, Fits;
    if run == [] {
      assert run + [m] == [m];
      assert DoRun(p, [m]) == DoRun(Do(p, m), []);
    } else {
      RunSnoc(Do(p, run[0]), run[1..], m);
      assert (run + [m])[0] == run[0] && (run + [m])[1..] == run[1..] + [m];
    }
  }

  /** What an agent's next move does to it while it holds a task. */
  lemma HoldingMoves(p: System, n: NodeId)
    requires AgentOf(p, n).Holding?
    ensures var t := AgentOf(p, n).task;
            && AgentOf(Do(p, Abandon(n)), n) == Resting
            && Attempts(AgentOf(Do(p, FailValidation(n)), n), t, Failed, 1)
            && AgentOf(Do(p, AskRunning(n)), n) == Asking(t, p.nextRid)
    ensures Fits(p, Abandon(n)) && Fits(p, FailValidation(n)) && Fits(p, AskRunning(n))
    ensures By(Abandon(n), n) && By(FailValidation(n), n) && By(AskRunning(n), n)
  {
  }

  /** The moves of one agent within a run. */
  ghost function Own(moves: seq<Move>, n: NodeId): seq<Move> {
    if moves == [] then []
    else
      var last := moves[|moves| - 1];
      Own(moves[..|moves| - 1], n) + if By(last, n) then [last] else []
  }

  lemma OwnSnoc(moves: seq<Move>, m: Move, n: NodeId)
    ensures Own(moves + [m], n) == Own(moves, n) + if By(m, n) then [m] else []
  {
    assert (moves + [m])[..|moves|] == moves;
  }

  lemma BehindOne(before: seq<Move>, m: Move, more: seq<Move>)
    ensures before + [m] + more == before + ([m] + more) && ([m] + more)[0] == m && ([m] + more)[1..] == more
  {
  }

  lemma Behind(before: seq<Move>, did: seq<Move>, more: seq<Move>)
    requires |did| == 2
    ensures before + did + more == before + (did + more)
    ensures (did + more)[0] == did[0] && (did + more)[1] == did[1] && (did + more)[2..] == more
  {
  }

  /** A wait for a reply ends with the reply or without. */
  predicate Waits(m: Move, n: NodeId) { (m.Receive? || m.GiveUp?) && m.node == n }

  /** A terminal report: one, two or three attempts. */
  predicate Reports(did: seq<Move>, n: NodeId) {
    1 <= |did| <= TERMINAL_STATUS_UPDATE_ATTEMPTS && forall i | 0 <= i < |did| :: Waits(did[i], n)
  }

  /**
   What an agent finds on its way through a task: whether the task is valid, whether one that is not is its own and
   assigned, whether its first log line goes through, and how the host work ends.
   */
  datatype Findings = Findings(valid: bool, matches: bool, logged: bool, ok: bool)

  /** Host work with its outcome and the report of it, or nothing. */
  predicate HostWork(did: seq<Move>, n: NodeId, ok: bool) {
    did == [] || (did[0] == HostDone(n, ok) && Reports(did[1..], n))
  }

  /** A task that failed validation: reported, unless it is not the agent's own or not assigned. */
  predicate FailureReported(did: seq<Move>, n: NodeId, matches: bool) {
    if matches then did != [] && did[0] == FailValidation(n) && Reports(did[1..], n) else did == [Abandon(n)]
  }

  /** What an agent does with a task it was given: host work only behind an asked and answered Running. */
  predicate TaskTurn(did: seq<Move>, n: NodeId, f: Findings) {
    if !f.valid then FailureReported(did, n, f.matches)
    else if !f.logged then did == [Abandon(n)]
    else |did| >= 2 && did[0] == AskRunning(n) && Waits(did[1], n) && HostWork(did[2..], n, f.ok)
  }

  /** One turn of the loop. */
  predicate Turn(did: seq<Move>, n: NodeId, f: Findings) {
    |did| >= 2 && did[0] == SendPoll(n) && Waits(did[1], n) && (|did| == 2 || TaskTurn(did[2..], n, f))
  }

  /** The system an agent works in, and how it came about. */
  class World {
    ghost var p: System
    ghost var moves: seq<Move>

    ghost predicate Valid()
      reads this
    {
      FitRun(Initial(), moves) && DoRun(Initial(), moves) == p
    }

    ghost constructor ()
      ensures Valid() && p == Initial()
    {
      p, moves := Initial(), [];
    }

    ghost method Make(m: Move, n: NodeId)
      requires Valid() && Fits(p, m)
      modifies this
      ensures Valid() && p == Do(old(p), m)
      ensures Own(moves, n) == old(Own(moves, n)) + if By(m, n) then [m] else []
    {
      RunSnoc(Initial(), moves, m);
      OwnSnoc(moves, m, n);
      p, moves := Do(p, m), moves + [m];
    }

    /** A move of the agent itself. */
    ghost method Act(m: Move, n: NodeId)
      requires Valid() && Fits(p, m) && By(m, n)
      modifies this
      ensures Valid() && p == Do(old(p), m) && Own(moves, n) == old(Own(moves, n)) + [m]
    {
      hide *;
      Make(m, n);
    }

    /** Whatever the others do meanwhile. */
    ghost method Others(n: NodeId)
      requires Valid()
      modifies this
      ensures Valid() && AgentOf(p, n) == old(AgentOf(p, n)) && Own(moves, n) == old(Own(moves, n))
    {
      hide Do, Fits, Own, By;
      var run: seq<Move> := *;
      for i := 0 to |run|
        invariant Valid() && AgentOf(p, n) == old(AgentOf(p, n)) && Own(moves, n) == old(Own(moves, n))
      {
        if Fits(p, run[i]) && !By(run[i], n) {
          OthersLeaveAgent(p, run[i], n);
          Make(run[i], n);
        }
      }
    }

    /** Waits for the reply to the request under way: it comes, or the agent gives up. */
    ghost method Await(n: NodeId) returns (did: Move)
      requires Valid() && (AgentOf(p, n).Polling? || AgentOf(p, n).Asking? || AgentOf(p, n).Reporting?)
      modifies this
      ensures Valid() && Own(moves, n) == old(Own(moves, n)) + [did] && Waits(did, n)
      ensures match old(AgentOf(p, n))
              case Polling(_) => AgentOf(p, n).Resting? || AgentOf(p, n).Holding?
              case Asking(t, _) => AgentOf(p, n).Resting? || AgentOf(p, n) == Executing(t)
              case Reporting(t, status, attempt, _) =>
                || AgentOf(p, n).Resting?
                || (attempt < TERMINAL_STATUS_UPDATE_ATTEMPTS && Attempts(AgentOf(p, n), t, status, attempt + 1))
    {
      hide Own, FitRun, DoRun;
      Others(n);
      var a := AgentOf(p, n);
      var answered: bool := *;
      did := if answered && a.rid in p.replies then Receive(n) else GiveUp(n);
      Act(did, n);
    }

    /** `update_terminal_task_status`, from its first attempt on: until it is accepted, at most three times. */
    ghost method UpdateTerminalTaskStatus(n: NodeId, t: TaskId, status: TaskStatus) returns (did: seq<Move>)
      requires Valid() && Attempts(AgentOf(p, n), t, status, 1)
      modifies this
      ensures Valid() && AgentOf(p, n).Resting?
      ensures Own(moves, n) == old(Own(moves, n)) + did && Reports(did, n)
    {
      hide Own, Do;
      did := [];
      for attempt := 1 to TERMINAL_STATUS_UPDATE_ATTEMPTS + 1
        invariant Valid() && |did| == attempt - 1
        invariant Own(moves, n) == old(Own(moves, n)) + did && forall i | 0 <= i < |did| :: Waits(did[i], n)
        invariant if attempt <= TERMINAL_STATUS_UPDATE_ATTEMPTS then Attempts(AgentOf(p, n), t, status, attempt)
                  else AgentOf(p, n).Resting?
      {
        var waited := Await(n);
        did := did + [waited];
        if AgentOf(p, n).Resting? {
          return;
        }
      }
    }

    /** `report_assigned_task_failure`: reports, unless the task it was given is not its own or not assigned. */
    ghost method ReportAssignedTaskFailure(n: NodeId, t: TaskId, matches: bool) returns (did: seq<Move>)
      requires Valid() && AgentOf(p, n) == Holding(t)
      modifies this
      ensures Valid() && AgentOf(p, n).Resting?
      ensures Own(moves, n) == old(Own(moves, n)) + did
      ensures FailureReported(did, n, matches)
    {
      HoldingMoves(p, n);
      hide Own, Do, FitRun, DoRun, Reports, AgentOf, Waits, Initial, Fits, By;
      if !matches {
        Act(Abandon(n), n);
        return [Abandon(n)];
      }
      Act(FailValidation(n), n);
      var reports := UpdateTerminalTaskStatus(n, t, Failed);
      BehindOne(old(Own(moves, n)), FailValidation(n), reports);
      did := [FailValidation(n)] + reports;
    }

    /** The request for Running, and the work behind it. */
    ghost method AskAndRun(n: NodeId, t: TaskId, ok: bool) returns (waited: Move, work: seq<Move>)
      requires Valid() && AgentOf(p, n) == Holding(t)
      modifies this
      ensures Valid() && AgentOf(p, n).Resting?
      ensures Own(moves, n) == old(Own(moves, n)) + [AskRunning(n), waited] + work
      ensures Waits(waited, n) && HostWork(work, n, ok)
    {
      HoldingMoves(p, n);
      assert HostWork([], n, ok);
      hide Own, Do, FitRun, DoRun, HostWork, AgentOf, Waits, Initial, Fits, By;
      Act(AskRunning(n), n);
      waited := Await(n);
      assert Own(moves, n) == old(Own(moves, n)) + [AskRunning(n), waited];
      work := [];
      if AgentOf(p, n).Executing? {
        work := RunOnHost(n, t, ok);
      }
    }

    /** `execute_mock_task`, behind a poll that offered a task. */
    ghost method ExecuteTask(n: NodeId, t: TaskId, f: Findings) returns (did: seq<Move>)
      requires Valid() && AgentOf(p, n) == Holding(t)
      modifies this
      ensures Valid() && AgentOf(p, n).Resting?
      ensures Own(moves, n) == old(Own(moves, n)) + did && TaskTurn(did, n, f)
    {
      hide Own, Do, FitRun, DoRun, Reports, AgentOf, Waits, Initial, Fits, By;
      if !f.valid {
        did := ReportAssignedTaskFailure(n, t, f.matches);
        return;
      }
      Others(n);
      if f.logged {
        var waited, work := AskAndRun(n, t, f.ok);
        did := [AskRunning(n), waited] + work;
        Behind(old(Own(moves, n)), [AskRunning(n), waited], work);
      } else {
        HoldingMoves(p, n);
        Act(Abandon(n), n);
        did := [Abandon(n)];
      }
    }

    /** The host work and its report, once the master has accepted Running. */
    ghost method RunOnHost(n: NodeId, t: TaskId, ok: bool) returns (did: seq<Move>)
      requires Valid() && AgentOf(p, n) == Executing(t)
      modifies this
      ensures Valid() && AgentOf(p, n).Resting?
      ensures Own(moves, n) == old(Own(moves, n)) + did
      ensures did != [] && HostWork(did, n, ok)
    {
      hide Own, FitRun, DoRun, Reports, Initial;
      Others(n);
      Act(HostDone(n, ok), n);
      var reports := UpdateTerminalTaskStatus(n, t, if ok then Succeeded else Failed);
      did := [HostDone(n, ok)] + reports;
    }

    /** `run_once`: the agent is back at the top of its loop, and all it did were moves of the protocol. */
    ghost method RunOnce(n: NodeId, f: Findings) returns (did: seq<Move>)
      requires Valid() && AgentOf(p, n).Resting?
      modifies this
      ensures Valid() && Reachable(p) && AgentOf(p, n).Resting?
      ensures Own(moves, n) == old(Own(moves, n)) + did && Turn(did, n, f)
    {
      hide Own, FitRun, DoRun;
      Others(n);
      Act(SendPoll(n), n);
      var waited := Await(n);
      did := [SendPoll(n), waited];
      if AgentOf(p, n).Holding? {
        var task := ExecuteTask(n, AgentOf(p, n).task, f);
        Behind(old(Own(moves, n)), did, task);
        did := did + task;
      }
    }
  }
}
