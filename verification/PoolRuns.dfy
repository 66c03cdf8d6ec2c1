/** Pools over whole runs: every pool can be filled to exactly the number of hosts it has to give. */
module PoolRuns {
  import opened Wrappers
  import opened Ipv4
  import opened Tasks
  import opened Ipam
  import opened Nodes
  import opened Database
  import opened Invariants
  import opened Guarantees
  import Cidr

  /** The hosts a pool has to give: a block without its network, its broadcast and the gateway. */
  function Hosts(p: Pool): int
    requires PoolOk(p)
  {
    PoolOkMeans(p);
    Cidr.Size(BlockOf(p).prefix) - 3
  }

  function ReadyNode(now: int): NodeRow {
    NodeRow(true, true, true, Some("1"), Some(now), Available, 0, 0, 0)
  }

  function PooledRequest(pool: PoolId, v: VmId): CreateVmRequest {
    CreateVmRequest(0, Some(v), Some(pool), None, None, None, None, true, "image", 1, 128, 1)
  }

  function Heartbeat(db: Db): Step { NodeStep(db.clock + 1, 0, ReadyNode(db.clock + 1)) }

  function CreateInPool(db: Db, pool: PoolId, v: VmId, t: TaskId, a: AllocationId): Step {
    CreateVmStep(db.clock + 1, t, a, v, PooledRequest(pool, v), PlanMissing, true)
  }

  /** A node that reports no totals has room for anything. */
  lemma AnythingFits(db: Db, r: CreateVmRequest, now: int)
    requires r.nodeId in db.nodes && db.nodes[r.nodeId] == ReadyNode(now)
    ensures HasCapacity(db, r)
  {
    hide CommittedIn;
  }

  lemma RoomInPool(db: Db, pool: PoolId)
    requires pool in db.pools && PoolOk(db.pools[pool]) && |ActiveIn(db.allocations, pool)| < Hosts(db.pools[pool])
    ensures PoolHasRoom(db, Some(pool))
  {
    PoolOkMeans(db.pools[pool]);
    hide PoolOk, BlockOf;
  }

  lemma CreateInPoolAccepted(db: Db, pool: PoolId, v: VmId, t: TaskId, a: AllocationId)
    requires Inv(db) && pool in db.pools && v !in db.vms && t !in db.tasks && a !in db.allocations
    requires 0 in db.nodes && db.nodes[0] == ReadyNode(db.clock)
    requires PoolOk(db.pools[pool]) && |ActiveIn(db.allocations, pool)| < Hosts(db.pools[pool])
    ensures Commits(db, CreateInPool(db, pool, v, t, a)).Some?
  {
    PooledRequestIsFine(pool, v, db.clock);
    hide *;
    RoomInPool(db, pool);
    AnythingFits(db, PooledRequest(pool, v), db.clock);
    CreateAcceptedIff(db, db.clock + 1, t, a, v, PooledRequest(pool, v), PlanMissing, true);
    CommitsCreate(db, pool, v, t, a);
  }

  lemma CommitsCreate(db: Db, pool: PoolId, v: VmId, t: TaskId, a: AllocationId)
    ensures Commits(db, CreateInPool(db, pool, v, t, a))
         == CreateVmTask(db, db.clock + 1, t, a, v, PooledRequest(pool, v), PlanMissing, true)
  {
    hide CreateVmTask;
  }

  lemma PooledRequestIsFine(pool: PoolId, v: VmId, now: int)
    ensures var r := PooledRequest(pool, v);
            && NormalizedRequest(r, v, PlanMissing) == Some(r) && ValidSizes(r) && r.textsValid
            && r.nodeId == 0 && r.vmId == Some(v) && r.poolId == Some(pool)
            && AcceptsTask(ReadyNode(now), CreateVm(r), now + 1)
  {
  }

  /** An accepted create in a pool adds one active row to it, and leaves the pools alone. */
  lemma CreateInPoolAdds(db: Db, pool: PoolId, v: VmId, t: TaskId, a: AllocationId)
    requires a !in db.allocations && Commits(db, CreateInPool(db, pool, v, t, a)).Some?
    ensures var db' := After(db, CreateInPool(db, pool, v, t, a));
            db'.pools == db.pools && |ActiveIn(db'.allocations, pool)| == |ActiveIn(db.allocations, pool)| + 1
  {
    hide ValidForMvp, HasCapacity, Reserve, AcceptsTask, Insert, ActiveIn;
    InsertAdds(db.allocations, a, pool, v, Reserve(db.pools, db.allocations, pool, v).value.address, t);
  }

  lemma InsertAdds(allocs: Allocations, a: AllocationId, pool: PoolId, v: VmId, ip: Ip, t: TaskId)
    requires a !in allocs
    ensures |ActiveIn(Insert(allocs, a, pool, v, ip, t), pool)| == |ActiveIn(allocs, pool)| + 1
  {
    assert ActiveIn(Insert(allocs, a, pool, v, ip, t), pool) == ActiveIn(allocs, pool) + {a};
  }

  /** Two requests in a row. */
  lemma TwoSteps(db: Db, first: Step, second: Step)
    requires Fair(db, first) && Fair(After(db, first), second)
    ensures FairRun(db, [first, second]) && AfterRun(db, [first, second]) == After(After(db, first), second)
  {
    hide Fair, After;
    assert [first, second][1..] == [second];
    OneStep(After(db, first), second);
  }

  lemma ReadyAfter(db: Db)
    requires Inv(db)
    ensures Fair(db, Heartbeat(db)) && Inv(After(db, Heartbeat(db)))
    ensures After(db, Heartbeat(db)) == db.(nodes := db.nodes[0 := ReadyNode(db.clock + 1)], clock := db.clock + 1)
  {
    StepInv(db, Heartbeat(db));
  }

  /** A heartbeat of a node with unknown totals, then a create in the pool: one more host is taken. */
  lemma FillsOne(db: Db, pool: PoolId) returns (run: seq<Step>)
    requires Inv(db) && pool in db.pools && PoolOk(db.pools[pool])
    requires |ActiveIn(db.allocations, pool)| < Hosts(db.pools[pool])
    ensures FairRun(db, run) && AfterRun(db, run).pools == db.pools
    ensures |ActiveIn(AfterRun(db, run).allocations, pool)| == |ActiveIn(db.allocations, pool)| + 1
  {
    FreshId(db.vms.Keys);
    var v: VmId :| v !in db.vms.Keys;
    FreshId(db.tasks.Keys);
    var t: TaskId :| t !in db.tasks.Keys;
    var a := FreshAllocation(db.allocations);
    ReadyAfter(db);
    var ready := After(db, Heartbeat(db));
    var create := CreateInPool(ready, pool, v, t, a);
    assert Fair(ready, create);
    hide *;
    CreateInPoolAccepted(ready, pool, v, t, a);
    CreateInPoolAdds(ready, pool, v, t, a);
    TwoSteps(db, Heartbeat(db), create);
    run := [Heartbeat(db), create];
  }

  /** One run after the other. */
  lemma {:induction false} RunsJoin(db: Db, first: seq<Step>, second: seq<Step>)
    requires FairRun(db, first) && FairRun(AfterRun(db, first), second)
    ensures FairRun(db, first + second) && AfterRun(db, first + second) == AfterRun(AfterRun(db, first), second)
    decreases |second|
  {
    hide Commits, Fair, After;
    if second == [] {
      assert first + second == first;
    } else {
      var last := second[|second| - 1];
      var init := second[..|second| - 1];
      assert second == init + [last] && first + second == (first + init) + [last];
      RunSnoc(AfterRun(db, first), init, last);
      RunsJoin(db, first, init);
      RunSnoc(db, first + init, last);
    }
  }

  lemma {:induction false} Fills(db: Db, pool: PoolId) returns (run: seq<Step>)
    requires Inv(db) && pool in db.pools && PoolOk(db.pools[pool])
    requires |ActiveIn(db.allocations, pool)| <= Hosts(db.pools[pool])
    ensures FairRun(db, run) && AfterRun(db, run).pools == db.pools
    ensures |ActiveIn(AfterRun(db, run).allocations, pool)| == Hosts(db.pools[pool])
    decreases Hosts(db.pools[pool]) - |ActiveIn(db.allocations, pool)|
  {
    hide Inv, Commits, FairRun, AfterRun, PoolOk;
    if |ActiveIn(db.allocations, pool)| == Hosts(db.pools[pool]) {
      run := [];
      NoRun(db);
    } else {
      var first := FillsOne(db, pool);
      RunInv(db, first);
      var second := Fills(AfterRun(db, first), pool);
      RunsJoin(db, first, second);
      run := first + second;
    }
  }

  lemma NoRun(db: Db)
    ensures FairRun(db, []) && AfterRun(db, []) == db
  {
  }

  /**
   From every reachable database every pool can be filled: some run of requests leads to one in which exactly
   2^(32-p) - 3 of its VMs hold an address, the most there can be.
   */
  lemma EveryPoolCanBeFilled(db: Db, pool: PoolId)
    requires Reachable(db) && pool in db.pools
    ensures PoolOk(db.pools[pool])
    ensures exists run :: && FairRun(db, run) && pool in AfterRun(db, run).pools
                          && AfterRun(db, run).pools[pool] == db.pools[pool]
                          && |Holders(AfterRun(db, run), pool)| == Hosts(db.pools[pool])
  {
    ReachableInv(db);
    hide Inv, Reachable;
    PoolCountsAgree(db, pool);
    var run := Fills(db, pool);
    RunInv(db, run);
    PoolCountsAgree(AfterRun(db, run), pool);
  }

  lemma BlockMakesAPool(b: Cidr.Block, gateway: Ip)
    requires b.Valid() && b.ContainsHost(gateway)
    ensures var p := NewPool(Cidr.BlockText(b), Display(gateway));
            p.Some? && PoolOk(p.value) && BlockOf(p.value) == b && GatewayOf(p.value) == gateway
  {
    Cidr.ParseBlockText(b);
    ParseDisplay(gateway);
    hide Cidr.ParseCidr, Parse, Display, Cidr.BlockText;
    NewPoolIsOk(Cidr.BlockText(b), Display(gateway));
  }

  lemma FirstPool(cidr: string, gateway: string)
    requires NewPool(cidr, gateway).Some?
    ensures var s := PoolStep(1, 0, cidr, gateway, true);
            Fair(Empty(), s) && After(Empty(), s).pools == map[0 := NewPool(cidr, gateway).value]
  {
    hide NewPool;
  }

  lemma ReachedBy(s: Step)
    requires Fair(Empty(), s)
    ensures Reachable(After(Empty(), s))
  {
    hide Fair, After;
    OneStep(Empty(), s);
  }

  /** There are pools of every size: any block with a usable gateway makes one, in an empty database. */
  lemma EveryBlockMakesAPool(b: Cidr.Block, gateway: Ip)
    requires b.Valid() && b.ContainsHost(gateway)
    ensures exists db :: Reachable(db) && 0 in db.pools && PoolOk(db.pools[0])
                         && BlockOf(db.pools[0]) == b && GatewayOf(db.pools[0]) == gateway
  {
    var cidr, router := Cidr.BlockText(b), Display(gateway);
    BlockMakesAPool(b, gateway);
    FirstPool(cidr, router);
    hide *;
    ReachedBy(PoolStep(1, 0, cidr, router, true));
    assert Reachable(After(Empty(), PoolStep(1, 0, cidr, router, true)));
  }

  lemma OneStep(db: Db, s: Step)
    requires Fair(db, s)
    ensures FairRun(db, [s]) && AfterRun(db, [s]) == After(db, s)
  {
    hide Fair, After;
    assert [s][1..] == [];
  }
}
