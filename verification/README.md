# A model of the VPS control plane

A master keeps tasks, virtual machines, nodes and IP allocations in transactional tables. An agent on each
host polls for tasks, drives libvirt, and reports back over a network that may lose, delay or repeat anything. This
project models that logic and proves what holds over every run of it.

`dafny verify dfyconfig.toml` checks the whole project.

## The parts

**Master** (`Tasks`, `Vms`, `Ipam`, `Nodes`, `Database`, `Invariants`, `Guarantees`, `Requests`, `CapacityRuns`,
`PoolRuns`, `Handlers`). `Database` gives each request one function on the tables; a request that is refused changes nothing.
`Invariants` proves one joint invariant over all runs, by way of the five effects a request can have.
`Guarantees`, `CapacityRuns` and `PoolRuns` say what it means. `Requests` says what each request needs and what it
leaves in the tables, column by column, without any of the functions that compute it.

`Handlers` is the same as the source writes it: a class whose methods update table after table, count rows and undo
everything when a step fails; each method equals its function. The work is in the loops and the partial updates:
the reservation search with its conflicting inserts, the sums of committed capacity, the search for the oldest
pending task, and the allocation row that exists before its task does. The rest (`ReleaseForVm`, `ApplyTaskStatus`,
`ApplyRetryCreated`, `RecordActionTaskCreated`, `CancelTask`, `AgentUpdateTaskStatus`, `CreateIpPool`) follows its
function almost word for word.

**Protocol** (`Protocol`, `AgentLoop`, `Settling`, `Progress`). The whole master, any number of agents, and a network that loses,
delays and repeats requests and loses replies. `AgentLoop` is the agent's loop as it is written, proved to make only
moves of `Protocol` whatever happens between two of its steps. `Settling` says which running tasks can still end,
`Progress` that every pending task can run, succeed and fail.

**Executor** (`Host`, `Executor`). One VM's directory and domain on its host. Every host command may fail with
or without having taken effect; programs may leave partial files; file operations may fail; a live domain may
stop or crash by itself. Failures are counted, so contracts can say what happens when nothing fails, or one thing.
`Host.Host.past` holds every state the host has been in, in order, and `sent` what `virsh` was told. The only way to change the state demands that the new
state is safe, so the operations are safe at every intermediate step.

**Redaction** (`Redaction`, `RedactionLaws`, `Secrets`, `Userinfo`, `UserinfoLaws`, `PrivateKeys`, `PrivateKeyLaws`).
The three scanners with their cursors and flags, the functions they compute, the fixed points and non-interference of
those functions, and which texts they mask and which they leave alone, character by character.

**Arithmetic and time** (`Ipv4`, `Cidr`, `Words`, `Nonces`, `RateLimit`, `Sums`).

## What is assumed

- A handler's transaction is atomic, and requests happen one after the other. The one exception, a status
  read apart from its guarded update, is the subject of `GuardedReportIsAtomic` and `GuardedCancelIsAtomic`.
- The clock moves on with every request, so creation times are distinct; generated ids are new.
- Uniqueness is what the migrations declare: one row per VM, task and nonce per node; active addresses
  are unique per pool and active allocations per VM (master/migrations/0004_ip_pools.sql).
- A plan, an image, a pool name or a text check has the outcome a request carries as a parameter.
- `virsh domstate` tells the truth when it answers, a command that reports success has taken effect (`shutdown` and
  `reboot` only ask the guest), a command that has returned takes no effect later, and only the agent starts domains
  or touches the VM directory.

## Where the code gives more or less than one may expect

- Committed capacity can exceed a node's total: VMs in Error are not counted, and a reinstall, a delete, a retry of
  either or a succeeded start counts them again without admission. `ExcessIsReached` is a run from empty tables that
  commits a node of 1 to 32 cores twice over. `Reenters` names those requests by a check on the database they find;
  `StaysWithinIff` and `AlwaysWithinIff` say that the total is kept exactly when each of them finds room.
- The rate limiter admits up to 2m - 1 requests in one window length, and never 2m (`FewerThanTwiceTheLimit`,
  `BoundIsReached`). It keeps to m in every window length iff m <= 1 or the window is at most one tick of the clock
  (`KeepsToLimitIff`).
- Remembering nonces for 600 seconds is one second short of a window of 300. The window compares whole seconds
  while the table keeps full timestamps, so over all runs a replay is impossible iff the table's clock ticks in
  seconds; on any finer clock 601 seconds are exactly enough (`TenMinutesIsTight`, `TenMinutesOnAFinerClock`).
  `Protocol` does not rely on it: its network may deliver any request again.
- A retried create is refused while its VM still holds an address (`RetryNeeds`).
- A VM whose domain is gone but whose files are not can be neither created, reinstalled nor deleted by the
  executor: those operations then change nothing (`CreateVm`, `ReinstallVm`, `DeleteVm`). A staged file that a crash
  or a failed cleanup left beside the VM's files blocks them in the same way, whatever the domain. No sequence of
  operations changes either directory (`Run`).
- A task whose agent restarts during host work, or loses all three final reports, stays Running for good: no agent
  will report it and no administrator may cancel it. `RunningSettlesIff` says exactly which running tasks can still
  end; `RestartStrands` is the case of the restart.
- Redacting private key blocks twice is redacting them once iff no line that is kept ends with two carriage returns
  before its newline (`RedactAgainIff`): "a\r\r\nb" loses one in each pass.

## Model

| member | source | states |
|---|---|---|
| `Invariants.StepEffect` | master/src/http/mod.rs:1339-1639 | every accepted request has exactly one of five effects on the tables: it creates a VM, queues a task on one, claims a task, settles a task, or leaves tasks, VMs and allocations alone; a refused one changes none of them |
| `Invariants.EffectInv` | master/src/vms/mod.rs:208-331 | each effect that changes the tables keeps the joint invariant on tasks, VMs, allocations and pools |
| `Invariants.StepInv` | master/src/http/mod.rs:1213-1639 | every request, accepted or refused, keeps the joint invariant |
| `Invariants.RunInv` | master/src/http/mod.rs:1213-1639 | the joint invariant holds after every run of requests |
| `Guarantees.OneTaskInFlight` | master/src/vms/mod.rs:112-146 | in every reachable database a VM has at most one active task, and it is the VM's last task |
| `Guarantees.SettlingKeepsLastTask` | master/src/vms/mod.rs:208-249 | although the applying update writes `last_task_id`, no report and no cancellation ever changes it |
| `Guarantees.StatusMirrorsLastTask` | master/src/vms/mod.rs:381-423 | VM status against its last task: provisioning, deleting and deleted each iff; what a succeeded, failed or canceled create, reinstall or delete leaves; what a start, stop or reboot leaves, settled or not; `deleted_at` is set exactly for deleted VMs |
| `Guarantees.DeletedForever` | master/src/vms/mod.rs:208-249 | the row of a deleted VM never changes again in any run, though the applying update has no such guard |
| `Guarantees.AddressIsOwned` | master/src/vms/mod.rs:389-417 | a VM shows an address iff it has exactly one active allocation, of that address and in its own pool |
| `Guarantees.NoSharedAddress` | master/src/ipam/mod.rs:82-128 | no two VMs of one pool show the same address |
| `Guarantees.PoolCountsAgree` | master/src/ipam/mod.rs:82-178 | under the invariant a pool has as many active allocations as VMs that hold an address, at most 2^(32-p) - 3 |
| `Guarantees.CancelAcceptedIff` | master/src/tasks/mod.rs:275-297 | under the invariant, so in every reachable database: cancellation succeeds exactly for a task that is pending or assigned: the row guards never refuse it |
| `Guarantees.ReportAcceptedIff` | master/src/tasks/mod.rs:233-273 | under the invariant, so in every reachable database: a status report succeeds exactly when the agent owns the task and reports running of an assigned one, succeeded of a running one, or failed or canceled of either: the row guards never refuse it |
| `Guarantees.ActionAcceptedIff` | master/src/http/mod.rs:1450-1537 | under the invariant, so in every reachable database: an action succeeds exactly when the VM is on that node, every task of it is over, it is up, stopped or in error, a stop or reboot finds it up and a start does not, the image of a reinstall is enabled, and the node is registered and scheduled |
| `Guarantees.ReserveForIff` | master/src/http/mod.rs:1365-1374 | a reservation for a pooled request succeeds exactly when the VM holds no address and the pool has room |
| `Requests.CreateNeeds` | master/src/http/mod.rs:1339-1394 | under the invariant: a create succeeds exactly when a plan it names exists and is enabled, texts and sizes (those of the plan, if any) are valid, the image is enabled, the VM id is new, the node is registered, scheduled, online, seen within two hours and able, it has room in cores, megabytes and gigabytes next to every VM not in error or deleted, and the pool has a free host |
| `Requests.CreateMakes` | master/src/http/mod.rs:1339-1394 | an accepted create makes a VM row and a pending task with the plan's sizes if it names a plan, else its own, with its node, pool and image, and with the pool's lowest free address or none; addresses the caller sent play no part, and nothing else changes |
| `Requests.ActionMakes` | master/src/http/mod.rs:1450-1537 | an accepted action queues the task of that action, a reinstall with the asked image or the row's and with the row's disk; the VM is then provisioning, deleting or as it was, and nothing else changes |
| `Requests.RetryNeeds` | master/src/http/mod.rs:1580-1639 | under the invariant: a retry succeeds exactly when its source failed or was canceled, every task of the VM is over and its status fits, image and node admit it and, for a create, there is room, a free host, and no address on the VM |
| `Requests.RetryMakes` | master/src/vms/mod.rs:261-289 | an accepted retry queues the same work on the same node, a create with a new address of its pool; the VM is then provisioning, deleting or as it was |
| `Requests.ReportMakes` | master/src/vms/mod.rs:381-423 | the whole outcome of an accepted report: task status, VM status, image of a succeeded reinstall, time of a succeeded delete, and the address given back by a failed or canceled create and a succeeded delete only |
| `Requests.CancelMakes` | master/src/vms/mod.rs:381-423 | the same outcome for an administrator's cancellation |
| `Requests.PollMakes` | master/src/tasks/mod.rs:19-41 | a poll hands out a task exactly when its node is scheduled and has a pending one; it assigns the oldest and changes nothing else |
| `Requests.PoolMakes` | master/src/ipam/mod.rs:24-57 | a pool is accepted exactly under a new acceptable name with a block and a gateway strictly inside it, and is stored denoting both |
| `Requests.SpecOverRuns` | master/src/vms/mod.rs:208-249 | over any run a VM keeps its node, pool and sizes, and its image is that of its last succeeded reinstall |
| `Guarantees.NoVmIsWedged` | master/src/tasks/mod.rs:275-297 | from every reachable database a provisioning or deleting VM has a cancellation or failure report that the master would accept and that puts it in error; whether an agent is left to send the report is the subject of `Settling` |
| `Guarantees.ClaimsAreInCreationOrder` | master/src/tasks/mod.rs:19-41 | a poll hands out the node's oldest pending task, and every task of the node that is assigned, running, succeeded or failed is older |
| `Guarantees.PollsAreInCreationOrder` | master/src/tasks/mod.rs:19-41 | of two polls of a node with any requests in between, the later hands out the younger task, whatever became of the earlier one |
| `Guarantees.StepRank` | master/src/tasks/mod.rs:377-387 | a status only ever falls in rank, and the sum of ranks pays for every status change |
| `Guarantees.ChangesAreBounded` | master/src/tasks/mod.rs:377-387 | over any run the status changes are at most the ranks at the start plus three per created task |
| `Guarantees.ThreeChangesPerTask` | master/src/tasks/mod.rs:377-387 | from an empty database there are at most three status changes per task |
| `Guarantees.RanksFallOverRuns` | master/src/tasks/mod.rs:377-387 | over any run a task stays and its status is the same or lower in rank |
| `Guarantees.GuardedReportIsAtomic` | master/src/tasks/mod.rs:233-273 | a report whose status read and guarded update are apart: by definition it is the atomic report if the status is still the one read and refused otherwise; whatever runs in between, a status still the one read never moved |
| `Guarantees.GuardedCancelIsAtomic` | master/src/tasks/mod.rs:275-297 | the same of a cancellation: it takes effect iff the status read was cancelable and is still there, and then it never moved in between |
| `Guarantees.StatusDoesNotComeBack` | master/src/tasks/mod.rs:377-387 | a status that is what it was before a run was never anything else within the run |
| `CapacityRuns.AdmittedFits` | master/src/nodes/mod.rs:172-203 | what admission accepts fits: committed plus requested is at most a known total, saturation and all |
| `CapacityRuns.RunCapacity` | master/src/nodes/mod.rs:135-203 | over any run with a constant known total, committed capacity stays within total, starting excess and the sizes of VMs that re-enter from error |
| `CapacityRuns.CommittedStaysWithinTotal` | master/src/nodes/mod.rs:34-41 | an upper bound over whole runs: a node started within its total exceeds it by no more than the sizes of what re-entered from error, and not at all if nothing did |
| `CapacityRuns.ReentrySkipsAdmission` | master/src/vms/mod.rs:342-423 | every request the guard `Reenters` names (acceptable reinstall or delete of a VM in error, a retry of one, success of a start) is accepted and adds exactly the VM's size to its node, without any check |
| `CapacityRuns.ReentersIff` | master/src/vms/mod.rs:342-438 | the guard, a check on database and request alone, holds iff the request counts a VM in error again other than by a retried create, and names that VM |
| `CapacityRuns.ReenteredIsGuarded` | master/src/nodes/mod.rs:34-41 | what a request re-enters on a node is the size the guard gives beforehand |
| `CapacityRuns.StaysWithinIff` | master/src/nodes/mod.rs:135-203 | for one request on a node within its known total: committed capacity stays within it iff committed plus what the guard lets back in fits |
| `CapacityRuns.AlwaysWithinIff` | master/src/nodes/mod.rs:135-203 | for whole runs: committed capacity stays within a constant known total throughout iff every request the guard names finds room |
| `CapacityRuns.ExcessIsReached` | master/src/nodes/mod.rs:34-41 | for every size from 1 to 32 cores, a run from empty tables that commits twice the cores a node has |
| `Handlers.Master.ReserveNextForVm` | master/src/ipam/mod.rs:82-128 | the search loop with its conflicting inserts reserves the address, or fails, as the function `Reserve` says |
| `Handlers.Master.AttachTask` | master/src/ipam/mod.rs:130-148 | attaches the task to the VM's active allocations and counts them |
| `Handlers.Master.ReleaseForVm` | master/src/ipam/mod.rs:162-178 | releases exactly the VM's active allocations |
| `Handlers.Master.ApplyTaskStatus` | master/src/vms/mod.rs:208-249 | the VM update a settled task causes, with its row guard, equals the function of that name |
| `Handlers.Master.ApplyRetryCreated` | master/src/vms/mod.rs:261-289 | the VM update of a retry, with its row guard, equals the function of that name |
| `Handlers.Master.RecordActionTaskCreated` | master/src/vms/mod.rs:291-315 | the VM update of a queued action, with its row guard, equals the function of that name |
| `Handlers.Master.CommittedCapacity` | master/src/nodes/mod.rs:34-41 | the sums over counted VMs of a node |
| `Handlers.Master.EnsureCapacity` | master/src/nodes/mod.rs:135-160 | admits exactly when every dimension with a known total has room |
| `Handlers.Master.CreateVmTask` | master/src/http/mod.rs:1339-1394 | the handler's updates in order commit to exactly what `Database.CreateVmTask` says, or leave every table as it was |
| `Handlers.Master.ReinstallVmTask` | master/src/http/mod.rs:1450-1493 | likewise for reinstall |
| `Handlers.Master.CreateVmActionTask` | master/src/http/mod.rs:1513-1537 | likewise for start, stop, reboot and delete |
| `Handlers.Master.CancelTask` | master/src/http/mod.rs:1557-1578 | likewise for an administrator's cancellation |
| `Handlers.Master.RetryTask` | master/src/http/mod.rs:1580-1639 | likewise for a retry |
| `Handlers.Master.AgentPollTask` | master/src/http/mod.rs:1213-1246 | a poll assigns the oldest pending task of an admitted node and returns it |
| `Handlers.Master.AgentUpdateTaskStatus` | master/src/http/mod.rs:1248-1304 | likewise for a status report |
| `Handlers.Master.CreateIpPool` | master/src/ipam/mod.rs:24-57 | a pool with an acceptable new name is stored with its normalized block, or refused with nothing changed |
| `Ipam.NewPoolIsOk` | master/src/ipam/mod.rs:24-57 | an accepted pool has the asked block, of 4 to 65536 addresses, and the asked gateway, which is one of its hosts; both stored texts fit their columns (master/migrations/0004_ip_pools.sql) |
| `Ipam.ReserveIsLowestFree` | master/src/ipam/mod.rs:82-128 | a reservation is a usable host, not the gateway and not active in the pool, and every lower such host is active |
| `Ipam.FailsIffAllUsed` | master/src/ipam/mod.rs:115-128 | for a VM without an address, reservation fails iff every host but the gateway is active |
| `Ipam.PoolCapacityIsExact` | master/src/ipam/mod.rs:280-289 | a /p pool never has more than 2^(32-p) - 3 active allocations, and reservation fails exactly at that number |
| `Ipam.InsertKeepsIndexes` | master/src/ipam/mod.rs:82-128 | a reservation keeps active addresses unique per pool and active rows unique per VM |
| `Ipam.ReleaseEffect` | master/src/ipam/mod.rs:162-178 | a release frees exactly the VM's rows and keeps the unique indexes |
| `PoolRuns.EveryPoolCanBeFilled` | master/src/ipam/mod.rs:82-128 | from every reachable database and for every pool some run makes exactly 2^(32-p) - 3 VMs hold an address of it |
| `PoolRuns.EveryBlockMakesAPool` | master/src/ipam/mod.rs:24-57 | every aligned block with a usable gateway is the pool of some reachable database |
| `Cidr.BroadcastFits` | master/src/ipam/mod.rs:238-253 | for every prefix the masked network is aligned and network plus size minus one does not overflow 32 bits |
| `Cidr.ParseCidrBlock` | master/src/ipam/mod.rs:238-253 | every accepted text denotes an aligned block of size 2^(32-p) that contains the written address |
| `Cidr.ParseBlockText` | master/src/ipam/mod.rs:228-236 | the text of a valid block parses back to that block |
| `Cidr.NormalizeKeepsBlock` | master/src/ipam/mod.rs:228-236 | normalized text parses to the same block, normalizes to itself and has 10 to 18 characters |
| `Cidr.NormalizeCanonical` | master/src/ipam/mod.rs:228-236 | two texts have the same normal form iff they denote the same block |
| `Words.MaskingIsAlignment` | master/src/ipam/mod.rs:242-245 | on words of 32 bits, shift, and, complement and or give exactly the aligned network and its last address, for every address and prefix |
| `Cidr.HostsPassValidator` | shared/src/tasks.rs:256-298 | every host address, prefix and gateway of a block passes the shared validator after printing |
| `Cidr.ValidatorMeaning` | shared/src/tasks.rs:256-298 | what the shared validator accepts is two addresses in one network of that prefix |
| `Ipv4.ParseDisplay` | master/src/ipam/mod.rs:274-278 | dotted-quad text of any address parses back to it |
| `Ipv4.DisplayParse` | master/src/ipam/mod.rs:274-278 | any accepted dotted-quad text is the printed form of what it parses to |
| `Ipv4.DisplayInjective` | master/src/ipam/mod.rs:119-124 | different addresses print differently |
| `Protocol.MoveOk` | agent/src/heartbeat.rs:49-237 | the system invariant survives every move of an agent, an administrator, the master or a network that loses, delays and repeats requests and loses replies |
| `Protocol.RunOk` | agent/src/heartbeat.rs:49-237 | the system invariant holds after every run of moves |
| `Protocol.HostWorkStartsAtMostOnce` | agent/src/heartbeat.rs:102-177 | host work for a task starts at most once, and ends at most as often as it started, even when requests are delivered again |
| `Protocol.CanceledNeverRuns` | master/src/tasks/mod.rs:357-365 | a task an administrator canceled never has host work and stays canceled |
| `Protocol.ShownOutcomeIsTheOutcome` | agent/src/heartbeat.rs:194-237 | the master shows succeeded only if the one execution returned Ok, and never failed for one that did, in spite of three attempts at the final report, each of which may arrive more than once |
| `Protocol.OneExecutor` | agent/src/heartbeat.rs:135-177 | at most one agent executes a task at a time, and the master shows it running |
| `Settling.TasksStayOnTheirNode` | master/src/tasks/mod.rs:19-41 | in every reachable system, the agent that by its stage holds, asked for, started, finished or rejected a task is the agent of the node the task was created for |
| `Settling.StuckForever` | agent/src/heartbeat.rs:102-237 | a running task that no agent carries, with no final report of it on the network, is running and uncarried after every run of moves |
| `Settling.RunningSettlesIff` | agent/src/heartbeat.rs:102-237 | in every reachable system some run ends a running task iff an agent is at work on it, has an attempt at its report left, or has only to read that it may start, or a final report of it is on the network; otherwise it is running in every run |
| `Settling.RestartStrands` | agent/src/heartbeat.rs:126-177 | an agent that restarts during host work leaves its task running with no run that ends it |
| `Progress.HeldTaskCanEnd` | agent/src/heartbeat.rs:102-177 | from every reachable system, a task that is assigned and held by an agent can run with that agent at work, and from there both succeed and fail |
| `Progress.EveryPendingTaskCanEnd` | agent/src/heartbeat.rs:49-177 | from every reachable system, whatever the agent is doing and whatever is queued before it, some run ends a pending task of a scheduled node in success and another in failure |
| `AgentLoop.World.UpdateTerminalTaskStatus` | agent/src/heartbeat.rs:194-237 | the retry loop ends after one to three attempts with the agent at rest, and makes only protocol moves |
| `AgentLoop.World.ReportAssignedTaskFailure` | agent/src/heartbeat.rs:179-192 | a task that fails validation is never run; it is reported one to three times if it is the agent's own and assigned, and dropped otherwise |
| `AgentLoop.World.AskAndRun` | agent/src/heartbeat.rs:126-177 | host work, and one report of its outcome, only behind a request for running that was answered |
| `AgentLoop.World.ExecuteTask` | agent/src/heartbeat.rs:102-192 | a task that is not valid is reported or dropped; one whose first log line fails is dropped; any other is asked for, worked on and reported with its outcome, in that order; the agent ends at rest |
| `AgentLoop.World.RunOnce` | agent/src/heartbeat.rs:49-75 | one turn is one poll and at most one task body; with anything happening in between it leads to a reachable system with the agent at rest |
| `Host.Host.Domstate` | agent/src/libvirt/mod.rs:801-816 | a reading, if there is one, is true; the domain may have drifted first |
| `Host.Host.Start` | agent/src/libvirt/mod.rs:388-398 | demands the files of the domain it starts; may fail with or without effect; success on a domain that was shut off means that it has been live since |
| `Host.Host.Destroy` | agent/src/libvirt/mod.rs:785-788 | success means that the domain is shut off; unless the command fails, it is not live afterwards; it fails without fault on a domain that is not live |
| `Host.Host.Undefine` | agent/src/libvirt/mod.rs:489-499 | demands that the domain is not live; success means it is gone |
| `Executor.EnsureMetadata` | agent/src/libvirt/mod.rs:1274-1301 | without file errors, succeeds exactly with disk, seed and describing domain.xml as regular files |
| `Executor.EnsureStopped` | agent/src/libvirt/mod.rs:801-816 | unless the reading fails, succeeds exactly on a domain seen shut off |
| `Executor.WaitFor` | agent/src/libvirt/mod.rs:529-576 | the polling loops end, touch no file, and succeed only on the wanted state |
| `Executor.EnsureOnlyManaged` | agent/src/libvirt/mod.rs:1039-1069 | without file errors, succeeds exactly when the directory holds nothing but regular managed files |
| `Executor.RemoveManagedDirectory` | agent/src/libvirt/mod.rs:1088-1096 | removes everything, or nothing if there is a foreign entry; without file errors it fails only then; no file is ever altered |
| `Executor.CreateArtifacts` | agent/src/libvirt/mod.rs:430-487 | adds only regular managed files; on success exactly the six, or five, with their contents |
| `Executor.CreateSeed` | agent/src/libvirt/mod.rs:829-859 | success of either tool leaves a seed made of the given sources; it fails only if both do; nothing else changes |
| `Executor.CleanupFailedDefine` | agent/src/libvirt/mod.rs:415-428 | either nothing is left and the domain is absent, or, but for file errors, every file is kept; without a fault it removes everything of an absent domain and nothing of a defined one |
| `Executor.CleanupDefinedCreateFailure` | agent/src/libvirt/mod.rs:489-499 | likewise, after an undefine of a domain seen shut off; without a fault everything goes |
| `Executor.CreateVm` | agent/src/libvirt/mod.rs:333-413 | refuses and changes nothing if a managed name exists or the request is not accepted; tells `virsh` at most define, start, undefine, in that order and behind its checks; success means running with all files; when nothing fails it defines and starts, every created file is there, and the domain was live over them even if it is not running when it is last looked at; with at most one fault on a new directory it succeeds, or nothing is left, or the domain was live, or a define that reported failure took effect |
| `Executor.CreateAndStart` | agent/src/libvirt/mod.rs:359-413 | the same, from the artifacts on; with a domain left over, every created file is kept whatever fails |
| `Executor.VirshVmCommand` | agent/src/libvirt/mod.rs:501-527 | touches no file; without metadata it tells `virsh` nothing, else, but for file errors, exactly its command; success means running, or shut off; when nothing fails a start finds the domain live, and only the domain's state can be in the way |
| `Executor.DeleteVm` | agent/src/libvirt/mod.rs:779-799 | tells `virsh` at most destroy, undefine; success leaves nothing; a foreign entry or a missing domain means nothing changed; without file errors a failure keeps every file; a file is gone only if the domain is; when nothing fails it succeeds exactly with metadata, only managed entries and a domain |
| `Executor.Prepare` | agent/src/libvirt/mod.rs:615-638 | live files stay as they are; all four artifacts are staged, or, without file errors, none |
| `Executor.CommitReinstall` | agent/src/libvirt/mod.rs:721-744 | a commit that fails validation changes nothing; one that passes it can fail only on a file error and otherwise installs every staged file under its live name |
| `Executor.ReplaceWithPrepared` | agent/src/libvirt/mod.rs:758-777 | replaces one live file by its staged one; after validation it fails only on a file error |
| `Executor.CommittedIsReinstalled` | agent/src/libvirt/mod.rs:721-744 | staging and committing amount to the reinstalled directory: new disk, seed and cloud-init sources, no staged file, all else as before |
| `Executor.ReinstallVm` | agent/src/libvirt/mod.rs:578-649 | tells `virsh` at most destroy, start, behind its checks; without file errors the directory is afterwards what it was or what it should become; domain.xml, network-config and foreign entries never change; a staged file of an earlier attempt, a missing domain or a request that is not accepted means nothing changed; success means running on the new files; when nothing fails it is reinstalled and was live over the new files |
| `Executor.Run` | agent/src/libvirt/mod.rs:133-157 | through any sequence of operations and at every intermediate step a live domain has disk, seed and domain.xml, and a defined one has its domain.xml; managed files without a domain, or beside a stale staged file, are never changed by any operation |
| `Redaction.RedactKeyValues` | agent/src/redaction.rs:95-113 | the scanner terminates and computes `Redact` |
| `Redaction.SensitiveAssignmentAt` | agent/src/redaction.rs:115-151 | finds an assignment exactly where `AssignmentAt` has one, at the same positions |
| `Redaction.ValueEnd` | agent/src/redaction.rs:153-199 | the value ends where `ValueLength` says |
| `RedactionLaws.RedactIsFixedPoint` | agent/src/redaction.rs:95-113 | a second pass changes nothing, on every text |
| `RedactionLaws.OutputIsMasked` | agent/src/redaction.rs:95-188 | at every position of the output, a sensitive assignment has the value `[REDACTED]` |
| `RedactionLaws.QuotedValuesDoNotShow` | agent/src/redaction.rs:95-188 | where the scan reaches a sensitive key with a quoted value, any other value free of that quote gives the same output |
| `RedactionLaws.UnquotedValuesDoNotShow` | agent/src/redaction.rs:95-199 | the same for every sensitive key with an unquoted value, token, cookie line or credential: any other value that is read in full gives the same output |
| `Secrets.SecretKeyIff` | agent/src/redaction.rs:3-14 | a key is sensitive exactly when one of the ten words stands in it, in any letter case and with hyphens for underscores |
| `Secrets.BareIsMasked` | agent/src/redaction.rs:95-217 | behind such a key, blanks and an equals sign or colon, the whole value without quotes becomes `[REDACTED]`: a cookie's line, a token, or one of the four schemes in any case with the token behind it on its line |
| `Secrets.QuotedIsMasked` | agent/src/redaction.rs:115-163 | behind such a key the whole value in quotes becomes `[REDACTED]`, closed or not |
| `Secrets.BareSecretsDoNotShow` | agent/src/redaction.rs:95-217 | where the scan reaches such a key, any other value without quotes gives the same output |
| `Secrets.CredentialsDoNotShow` | agent/src/redaction.rs:172-186 | where the scan reaches a key with authorization or credential in it and one of the four schemes, any other token behind the scheme gives the same output |
| `Secrets.QuotedSecretsDoNotShow` | agent/src/redaction.rs:115-163 | the same of values in quotes |
| `Secrets.OpensIff` | agent/src/redaction.rs:115-151 | the scan finds an assignment exactly where a text opens with such a key, blanks, an equals sign or colon, blanks, and something |
| `Secrets.NothingElseIsTouched` | agent/src/redaction.rs:95-113 | a text that opens none at the start of any word stays as it is |
| `Userinfo.RedactUrlUserinfo` | agent/src/redaction.rs:22-59 | the scanner with cursor and search position terminates and computes `Redact` |
| `UserinfoLaws.RedactIsFixedPoint` | agent/src/redaction.rs:22-59 | a second pass changes nothing, on every text |
| `UserinfoLaws.UserinfoDoesNotShow` | agent/src/redaction.rs:22-59 | where the search reaches an authority with an `@`, any other userinfo gives the same output |
| `UserinfoLaws.UserinfoIsMasked` | agent/src/redaction.rs:22-59 | behind the first `://`, everything up to an `@` is masked if none of the thirteen delimiters stands before it |
| `UserinfoLaws.AuthorityIsCopied` | agent/src/redaction.rs:22-59 | an authority that ends without an `@` is copied, and the search goes on behind it |
| `UserinfoLaws.NoUrlNoChange` | agent/src/redaction.rs:22-59 | a text without `://` stays as it is |
| `PrivateKeys.RedactPrivateKeyBlocks` | agent/src/redaction.rs:61-93 | the loop over the lines computes `Redact`, which puts the lines together from the front |
| `PrivateKeyLaws.NoKeyBlockIsLeft` | agent/src/redaction.rs:61-93 | no line of the output begins a private key, on every text |
| `PrivateKeyLaws.RedactAgainIff` | agent/src/redaction.rs:61-93 | a second pass changes nothing iff no line that is kept ends with two carriage returns before its newline |
| `PrivateKeyLaws.KeyBodiesDoNotShow` | agent/src/redaction.rs:61-93 | wherever a line that begins a key stands, any other whole lines after it that neither begin nor end one give the same output |
| `PrivateKeyLaws.KeyBlockIsReplaced` | agent/src/redaction.rs:61-93 | a private key between plain lines becomes one mark, and the text before and after stays as it is |
| `PrivateKeyLaws.PlainStays` | agent/src/redaction.rs:61-93 | a text without carriage returns that begins no key and does not start with a newline stays as it is |
| `Nonces.NonceStore.RememberNonce` | master/src/nodes/mod.rs:407-429 | forgets what is older than the retention and inserts unless still present |
| `Nonces.NonceStore.VerifyAgentRequest` | master/src/nodes/mod.rs:356-405 | accepts only what is authentic and, in whole seconds, in the window, and of that exactly what the table does not remember from within the retention; anything else leaves the table as it was |
| `Nonces.AcceptedIff` | master/src/nodes/mod.rs:356-429 | over any run, an arrival is accepted iff it is authentic, in the window, and no accepted arrival with its node and nonce lies within the retention before it |
| `Nonces.AcceptedAtMostOnce` | master/src/nodes/mod.rs:384-440 | with enough retention no node, nonce and timestamp is accepted twice in any run on one clock |
| `Nonces.LessRetentionForgets` | master/src/nodes/mod.rs:407-429 | with any less there is a run that accepts the same request twice |
| `Nonces.RetentionIsExact` | master/src/nodes/mod.rs:384-440 | replay is impossible over all runs iff the retention is at least twice the window, plus a tick less than a second |
| `Nonces.TenMinutesIsTight` | master/src/nodes/mod.rs:384-429 | for a window of 300 seconds, replay is impossible over all runs iff the retention is at least 600 seconds on a clock of whole seconds, 601 on any finer one |
| `Nonces.TenMinutesOnAFinerClock` | master/src/nodes/mod.rs:407-429 | with the code's 300 and 600 seconds, replay is impossible over all runs iff the table keeps whole seconds |
| `RateLimit.RateLimiter.Check` | master/src/rate_limit.rs:29-56 | verdict and new map are those of `Checked`, step by step as written |
| `RateLimit.SharedMapIsManyLimiters` | master/src/rate_limit.rs:29-56 | the shared map with eager eviction gives every key the verdicts of its own fixed window |
| `RateLimit.FewerThanTwiceTheLimit` | master/src/rate_limit.rs:29-56 | for a key with limit m > 0, any half-open interval of one window length has fewer than 2m accepted requests |
| `RateLimit.BoundIsReached` | master/src/rate_limit.rs:29-56 | a run with 2m - 1 accepted requests in one window length, for every m > 0 and window of two or more |
| `RateLimit.KeepsToLimitIff` | master/src/rate_limit.rs:29-56 | over all runs no window length holds more than m accepted requests iff m <= 1 or the window is at most one tick |

## Left out

- CapacityRuns.CommittedStaysWithinTotal: is an upper bound, because the sizes of what re-entered are summed even if other VMs left meanwhile; `AlwaysWithinIff` is exact.
- HTTP, JSON, TLS, bearer authentication, HMAC, Argon2 and SHA-256: library code; whether a signature is authentic is a parameter.
- SQL text, row locks and isolation anomalies: tables are maps, and a transaction is one step that may be rolled back.
- Plans and image catalogues: only whether an image is enabled and what a plan fills in; name, URL and SSH key checks are one flag of a request.
- Heartbeat metrics, bootstrap tokens and audit rows: they touch no state the properties speak of; a node row may be rewritten by anything.
- Task logs and the escaping of error messages: text only; whether a message can be stored is a parameter of a report.
- `redact_json_value` and the composed `redact_text`: the three stages are proved one by one, and nothing is claimed of a second pass over all three.
- `redact_text` on bytes: text is a sequence of characters; the scanners compare ASCII characters only.
- Symbolic links, permissions and path canonicalisation: an entry is a regular file or something else, and checks outside the VM directory are commands that only read.
- The XML of a domain: a domain.xml describes this VM or does not; `Host` keeps one VM, since operations never touch another's directory or domain.
- Host.Host.Produce: does not model a program that removes or replaces other files than its output.
- AgentLoop.World.RunOnce: does not model heartbeats and log uploads beyond that they may fail, because they change no task.
- Executor.ReinstallVm: does not promise all or nothing when a remove or a rename fails, because the commit replaces four files one by one.
- Replies: a reply may be lost or late, but the network delivers it to the request it answers, as a connection does.
