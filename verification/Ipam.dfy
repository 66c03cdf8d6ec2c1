/** IP pools and the allocation table: reserving the lowest free host, releasing, and how many fit. */
module Ipam {
  import opened Wrappers
  import opened Ipv4
  import opened Tasks
  import opened Cidr
  import opened Sums

  /** A pool row: the stored texts. Creation normalises the CIDR and checks the gateway. */
  datatype Pool = Pool(cidr: string, gateway: string)

  datatype Allocation = Allocation(pool: PoolId, vm: VmId, ip: Ip, task: Option<TaskId>, releasedAt: Option<int>) {
    predicate Active() { releasedAt.None? }
  }

  type Allocations = map<AllocationId, Allocation>

  datatype ReservedIp = ReservedIp(address: Ip, prefix: nat, gateway: Ip)

  /** `create_in_tx`: the stored row, or nothing when the CIDR or the gateway is refused. */
  function NewPool(cidr: string, gateway: string): Option<Pool> {
    match (ParseCidr(cidr), Parse(gateway))
    case (Some(b), Some(g)) =>
      if b.ContainsHost(g) then Some(Pool(NormalizeCidr(cidr).value, gateway)) else None
    case _ => None
  }

  predicate PoolParses(p: Pool) {
    ParseCidr(p.cidr).Some? && Parse(p.gateway).Some?
  }

  function BlockOf(p: Pool): Block
    requires PoolParses(p)
  {
    ParseCidr(p.cidr).value
  }

  function GatewayOf(p: Pool): Ip
    requires PoolParses(p)
  {
    Parse(p.gateway).value
  }

  ghost predicate PoolOk(p: Pool) {
    PoolParses(p) && BlockOf(p).Valid() && BlockOf(p).ContainsHost(GatewayOf(p))
  }

  /** Every pool the master stores fits its columns and parses again, to the block and gateway that were asked for. */
  lemma NewPoolIsOk(cidr: string, gateway: string)
    requires NewPool(cidr, gateway).Some?
    ensures var p := NewPool(cidr, gateway).value;
            && PoolOk(p) && Some(BlockOf(p)) == ParseCidr(cidr) && Some(GatewayOf(p)) == Parse(gateway)
            && 9 <= |p.cidr| <= 18 && 7 <= |p.gateway| <= 15
  {
    hide ParseCidr, Parse, Display;
    NormalizeKeepsBlock(cidr);
    ParseCidrBlock(cidr);
    DisplayParse(gateway);
    DisplayLength(Parse(gateway).value);
  }

  /** An address a pool can hand out. */
  predicate Allocatable(p: Pool, ip: Ip)
    requires PoolParses(p)
  {
    BlockOf(p).ContainsHost(ip) && ip != GatewayOf(p)
  }

  ghost function ActiveIn(allocs: Allocations, pool: PoolId): set<AllocationId> {
    set a | a in allocs && allocs[a].Active() && allocs[a].pool == pool
  }

  ghost function ActiveFor(allocs: Allocations, vm: VmId): set<AllocationId> {
    set a | a in allocs && allocs[a].Active() && allocs[a].vm == vm
  }

  function ActiveAddresses(allocs: Allocations, pool: PoolId): set<Ip> {
    set a | a in allocs && allocs[a].Active() && allocs[a].pool == pool :: allocs[a].ip
  }

  predicate HasActive(allocs: Allocations, vm: VmId) {
    exists a | a in allocs :: allocs[a].Active() && allocs[a].vm == vm
  }

  /** The two partial unique indexes of the table, and every active row lying in its pool. */
  ghost predicate AllocationsOk(pools: map<PoolId, Pool>, allocs: Allocations) {
    && (forall a, b | a in allocs && b in allocs && allocs[a].Active() && allocs[b].Active() ::
          (allocs[a].vm == allocs[b].vm ==> a == b)
          && (allocs[a].pool == allocs[b].pool && allocs[a].ip == allocs[b].ip ==> a == b))
    && (forall a | a in allocs && allocs[a].Active() ::
          allocs[a].pool in pools && PoolOk(pools[allocs[a].pool])
          && Allocatable(pools[allocs[a].pool], allocs[a].ip))
  }

  /** The first candidate from `ip` up to the broadcast that is neither the gateway nor in use. */
  function LowestFree(ip: nat, broadcast: Ip, gateway: Ip, used: set<Ip>): (r: Option<Ip>)
    ensures r.Some? ==> ip <= r.value < broadcast && r.value != gateway && r.value !in used
    ensures forall x: Ip | ip <= x < (if r.Some? then r.value else broadcast) :: x == gateway || x in used
    decreases broadcast - ip
  {
    if ip >= broadcast then None
    else if ip == gateway || ip in used then LowestFree(ip + 1, broadcast, gateway, used)
    else Some(ip)
  }

  /** `reserve_next_for_vm_in_tx` as a function: a VM with an active row conflicts with every insert. */
  function Reserve(pools: map<PoolId, Pool>, allocs: Allocations, pool: PoolId, vm: VmId): Option<ReservedIp> {
    if pool !in pools || !PoolParses(pools[pool]) || HasActive(allocs, vm) then None
    else
      var b, g := BlockOf(pools[pool]), GatewayOf(pools[pool]);
      match LowestFree(b.network + 1, b.broadcast, g, ActiveAddresses(allocs, pool))
      case None => None
      case Some(ip) => Some(ReservedIp(ip, b.prefix, g))
  }

  /** `release_for_vm_in_tx` */
  function Release(allocs: Allocations, vm: VmId, now: int): Allocations {
    map a | a in allocs ::
      if allocs[a].Active() && allocs[a].vm == vm then allocs[a].(releasedAt := Some(now)) else allocs[a]
  }

  /** `attach_task_in_tx`: links every active row of the VM to the task. */
  function Attach(allocs: Allocations, vm: VmId, task: TaskId): Allocations {
    map a | a in allocs ::
      if allocs[a].Active() && allocs[a].vm == vm then allocs[a].(task := Some(task)) else allocs[a]
  }

  /** The inserted row, once `attach_task_in_tx` has linked it to its task. */
  function Insert(allocs: Allocations, id: AllocationId, pool: PoolId, vm: VmId, ip: Ip, task: TaskId): Allocations {
    allocs[id := Allocation(pool, vm, ip, Some(task), None)]
  }

  /**
   What a reservation promises: it is the lowest address of the pool that is a usable host, not the
   gateway and not actively allocated, and its network fields satisfy the validator of both sides.
   */
  lemma ReserveIsLowestFree(pools: map<PoolId, Pool>, allocs: Allocations, pool: PoolId, vm: VmId)
    requires pool in pools && PoolOk(pools[pool])
    requires Reserve(pools, allocs, pool, vm).Some?
    ensures var r := Reserve(pools, allocs, pool, vm).value;
            && Allocatable(pools[pool], r.address)
            && r.prefix == BlockOf(pools[pool]).prefix && r.gateway == GatewayOf(pools[pool])
            && r.address !in ActiveAddresses(allocs, pool)
            && (forall x: Ip | Allocatable(pools[pool], x) && x < r.address :: x in ActiveAddresses(allocs, pool))
            && ValidAssignedNetwork(Some(Display(r.address)), Some(r.prefix), Some(Display(r.gateway)))
  {
    hide ParseCidr, Parse, Display, ValidAssignedNetwork;
    var r := Reserve(pools, allocs, pool, vm).value;
    HostsPassValidator(BlockOf(pools[pool]), r.address, r.gateway);
  }

  ghost function AllocatableSet(p: Pool): (s: set<int>)
    requires PoolOk(p)
    ensures forall x: Ip :: x in s <==> Allocatable(p, x)
  {
    Interval(BlockOf(p).network + 1, BlockOf(p).broadcast) - {GatewayOf(p)}
  }

  lemma PoolOkMeans(p: Pool)
    requires PoolOk(p)
    ensures PoolParses(p)
    ensures var b := BlockOf(p);
            16 <= b.prefix <= 30 && b.broadcast == b.network + Size(b.prefix) - 1
            && b.network < GatewayOf(p) < b.broadcast
  {
    hide ParseCidr, Parse;
  }

  lemma IntervalWithout(lo: int, hi: int, x: int)
    requires lo <= x < hi
    ensures |Interval(lo, hi) - {x}| == hi - lo - 1
  {
    IntervalSize(lo, hi);
  }

  lemma AllocatableCount(p: Pool)
    requires PoolOk(p)
    ensures Size(BlockOf(p).prefix) >= 3
    ensures |AllocatableSet(p)| == Size(BlockOf(p).prefix) - 3
  {
    hide ParseCidr, Parse, Size, Interval;
    PoolOkMeans(p);
    SizeAtLeastFour(BlockOf(p).prefix);
    IntervalWithout(BlockOf(p).network + 1, BlockOf(p).broadcast, GatewayOf(p));
  }

  lemma SizeAtLeastFour(prefix: nat)
    requires 16 <= prefix <= 30
    ensures Size(prefix) >= 4
  {
    assert Pow2(2) == 4;
    Pow2Add(30 - prefix, 2);
  }

  /** Active rows of a pool and its active addresses are the same number of things. */
  lemma ActiveRowsAreAddresses(pools: map<PoolId, Pool>, allocs: Allocations, pool: PoolId)
    requires AllocationsOk(pools, allocs)
    ensures |ActiveIn(allocs, pool)| == |ActiveAddresses(allocs, pool)|
  {
    hide PoolOk, Allocatable;
    var rows, f := ActiveIn(allocs, pool), map a | a in allocs :: allocs[a].ip;
    forall ip | ip in ActiveAddresses(allocs, pool)
      ensures exists a :: a in rows && f[a] == ip
    {
      var a :| a in allocs && allocs[a].Active() && allocs[a].pool == pool && allocs[a].ip == ip;
      assert a in rows && f[a] == ip;
    }
    CardinalityOfImage(rows, f, ActiveAddresses(allocs, pool));
  }

  /**
   A /p pool never holds more than 2^(32-p) - 3 active rows, and a VM without one is refused
   exactly when it holds that many.
   */
  lemma PoolCapacityIsExact(pools: map<PoolId, Pool>, allocs: Allocations, pool: PoolId, vm: VmId)
    requires AllocationsOk(pools, allocs)
    requires pool in pools && PoolOk(pools[pool])
    requires !HasActive(allocs, vm)
    ensures Size(BlockOf(pools[pool]).prefix) >= 3
    ensures |ActiveIn(allocs, pool)| <= Size(BlockOf(pools[pool]).prefix) - 3
    ensures Reserve(pools, allocs, pool, vm).None?
            <==> |ActiveIn(allocs, pool)| == Size(BlockOf(pools[pool]).prefix) - 3
  {
    hide ParseCidr, Parse, Allocatable;
    var p, used := pools[pool], ActiveAddresses(allocs, pool);
    AllocatableCount(p);
    ActiveRowsAreAddresses(pools, allocs, pool);
    UsedIsAllocatable(pools, allocs, pool);
    var all: set<int> := AllocatableSet(p);
    SubsetSize(used, all);
    FailsIffAllUsed(pools, allocs, pool, vm);
    if Reserve(pools, allocs, pool, vm).None? {
      assert all <= used by {
        forall x | x in all ensures x in used {
          var ip: Ip := x;
          assert Allocatable(p, ip);
        }
      }
      assert all == used;
    }
  }

  lemma UsedIsAllocatable(pools: map<PoolId, Pool>, allocs: Allocations, pool: PoolId)
    requires AllocationsOk(pools, allocs) && pool in pools && PoolOk(pools[pool])
    ensures forall x | x in ActiveAddresses(allocs, pool) :: Allocatable(pools[pool], x)
  {
  }

  lemma FailsIffAllUsed(pools: map<PoolId, Pool>, allocs: Allocations, pool: PoolId, vm: VmId)
    requires pool in pools && PoolOk(pools[pool]) && !HasActive(allocs, vm)
    ensures Reserve(pools, allocs, pool, vm).None?
            <==> forall x: Ip | Allocatable(pools[pool], x) :: x in ActiveAddresses(allocs, pool)
  {
    hide ParseCidr, Parse;
    var b, g := BlockOf(pools[pool]), GatewayOf(pools[pool]);
    var r := LowestFree(b.network + 1, b.broadcast, g, ActiveAddresses(allocs, pool));
    if r.Some? {
      assert Allocatable(pools[pool], r.value);
    }
  }

  /** Inserting what was reserved keeps both indexes. */
  lemma InsertKeepsIndexes(pools: map<PoolId, Pool>, allocs: Allocations, id: AllocationId, pool: PoolId, vm: VmId,
                           task: TaskId)
    requires AllocationsOk(pools, allocs)
    requires id !in allocs && pool in pools && PoolOk(pools[pool])
    requires Reserve(pools, allocs, pool, vm).Some?
    ensures AllocationsOk(pools, Insert(allocs, id, pool, vm, Reserve(pools, allocs, pool, vm).value.address, task))
  {
    hide ParseCidr, Parse, ValidAssignedNetwork;
    ReserveIsLowestFree(pools, allocs, pool, vm);
    var ip := Reserve(pools, allocs, pool, vm).value.address;
    forall a | a in allocs && allocs[a].Active()
      ensures allocs[a].vm != vm
      ensures allocs[a].pool == pool ==> allocs[a].ip != ip
    {
      assert allocs[a].pool == pool ==> allocs[a].ip in ActiveAddresses(allocs, pool);
    }
  }

  /** Releasing frees the VM's row and no other. */
  lemma ReleaseEffect(pools: map<PoolId, Pool>, allocs: Allocations, vm: VmId, now: int)
    requires AllocationsOk(pools, allocs)
    ensures AllocationsOk(pools, Release(allocs, vm, now))
    ensures !HasActive(Release(allocs, vm, now), vm)
    ensures forall a | a in allocs && allocs[a].vm != vm :: Release(allocs, vm, now)[a] == allocs[a]
    ensures forall pool :: ActiveIn(Release(allocs, vm, now), pool) == ActiveIn(allocs, pool) - ActiveFor(allocs, vm)
  {
    hide PoolOk, Allocatable;
  }
}
