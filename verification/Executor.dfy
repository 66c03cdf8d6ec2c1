/**
 The agent's libvirt executor: create, reinstall, delete and the power commands, as steps on one VM's host
 state. Every operation starts from any safe state, passes through safe states only, and says what each of
 its exits leaves behind.
 */
module Executor {
  import opened Wrappers
  import opened Host

  const DOMAIN_STATE_POLL_ATTEMPTS := 60

  /** No command, write or file operation has failed since. */
  ghost predicate NothingFailed(failures: nat, fileErrors: nat, h: Host)
    reads h
  {
    h.failures == failures && h.fileErrors == fileErrors
  }

  /** Of some commands in order, the first few were sent. */
  predicate UpTo(before: seq<Command>, now: seq<Command>, commands: seq<Command>) {
    before <= now && now[|before|..] <= commands
  }

  // ----- Common steps -----

  /** `ensure_vm_domain_metadata` behind `ensure_managed_vm_dir`. */
  method EnsureMetadata(h: Host) returns (ok: bool)
    requires h.Valid()
    modifies h`fileErrors
    ensures h.Goes()
    ensures ok ==> h.state.dir && HasMetadata(h.state.files) && h.fileErrors == old(h.fileErrors)
    ensures !ok ==> h.fileErrors > old(h.fileErrors) || !HasMetadata(h.state.files)
  {
    ok := h.LookAtDir();
    if !ok {
      return;
    }
    var disk := h.LookAt(Disk);
    if disk != Present {
      return false;
    }
    var seed := h.LookAt(Seed);
    if seed != Present {
      return false;
    }
    var xml := h.LookAt(DomainXml);
    if xml != Present {
      return false;
    }
    var content := h.Read(DomainXml);
    ok := content == Some(Describes);
  }

  /** `ensure_domain_stopped_before_delete_cleanup` */
  method EnsureStopped(h: Host) returns (ok: bool)
    requires h.Valid()
    modifies h
    ensures h.Goes() && h.fileErrors == old(h.fileErrors) && h.sent == old(h.sent)
    ensures h.state == old(h.state).(domain := h.state.domain) && MayDrift(old(h.state.domain), h.state.domain)
    ensures ok ==> h.state.domain == ShutOff
    ensures !ok ==> h.failures > old(h.failures) || h.state.domain != ShutOff
  {
    var reading := h.Domstate();
    ok := reading == Seen(ShutOff);
  }

  /** The two polling loops: until the domain is running, or shut off. */
  method WaitFor(h: Host, wanted: Domain) returns (ok: bool)
    requires h.Valid() && wanted != Absent
    modifies h
    ensures h.Goes() && h.fileErrors == old(h.fileErrors) && h.sent == old(h.sent)
    ensures h.state == old(h.state).(domain := h.state.domain) && MayDrift(old(h.state.domain), h.state.domain)
    ensures ok ==> h.state.domain == wanted
    ensures !ok ==> h.failures > old(h.failures) || h.state.domain != wanted
  {
    var attempt := 0;
    while attempt < DOMAIN_STATE_POLL_ATTEMPTS
      invariant h.Goes() && h.fileErrors == old(h.fileErrors) && h.sent == old(h.sent)
      invariant h.state == old(h.state).(domain := h.state.domain) && MayDrift(old(h.state.domain), h.state.domain)
      invariant attempt > 0 ==> h.state.domain != wanted
    {
      var reading := h.Domstate();
      if reading.Unreadable? || reading.NotFound? {
        return false;
      }
      if reading == Seen(wanted) {
        return true;
      }
      attempt := attempt + 1;
    }
    return false;
  }

  // ----- Removing a VM directory -----

  predicate OnlyManaged(files: Files) {
    forall n | n in files :: n in MANAGED_NAMES && files[n].Regular?
  }

  /** `ensure_only_managed_vm_artifacts` */
  method EnsureOnlyManaged(h: Host) returns (ok: bool)
    requires h.Valid()
    modifies h`fileErrors
    ensures h.Goes()
    ensures ok ==> h.state.dir && OnlyManaged(h.state.files) && h.fileErrors == old(h.fileErrors)
    ensures !ok ==> !h.state.dir || !OnlyManaged(h.state.files) || h.fileErrors > old(h.fileErrors)
  {
    ok := h.LookAtDir();
    if !ok {
      return;
    }
    var listed := h.ListDir();
    if listed.None? {
      return false;
    }
    var rest := listed.value;
    while rest != {}
      invariant h.Goes() && h.fileErrors == old(h.fileErrors) && rest <= h.state.files.Keys
      invariant forall n | n in h.state.files.Keys - rest :: n in MANAGED_NAMES && h.state.files[n].Regular?
    {
      var name :| name in rest;
      if name !in MANAGED_NAMES {
        return false;
      }
      var look := h.LookAt(name);
      if look == Rejected {
        return false;
      }
      rest := rest - {name};
    }
  }

  /** `remove_managed_file_if_present` */
  method RemoveIfPresent(h: Host, name: FileName) returns (ok: bool)
    requires h.Valid() && Safe(h.state.(files := h.state.files - {name}))
    modifies h
    ensures h.Goes() && h.sent == old(h.sent)
    ensures if ok
            then h.state == old(h.state).(files := old(h.state.files) - {name}) && h.fileErrors == old(h.fileErrors)
            else h.state == old(h.state)
    ensures !ok ==> h.fileErrors > old(h.fileErrors) || (name in h.state.files && h.state.files[name] == Irregular)
  {
    var look := h.LookAt(name);
    if look == Rejected {
      return false;
    }
    if look == Missing {
      assert h.state.files == h.state.files - {name};
      return true;
    }
    ok := h.RemoveFile(name);
  }

  function Firsts(names: seq<FileName>, i: nat): set<FileName>
    requires i <= |names|
  {
    set k | 0 <= k < i :: names[k]
  }

  /** Removes every one of some names, stopping at the first failure. */
  method RemoveAll(h: Host, names: seq<FileName>) returns (ok: bool)
    requires h.Valid() && !Live(h.state.domain) && (h.state.domain != Absent ==> DomainXml !in names)
    modifies h
    ensures h.Goes() && h.sent == old(h.sent)
    ensures h.state == old(h.state).(files := h.state.files)
    ensures h.state.files.Keys <= old(h.state.files.Keys)
    ensures forall n | n in h.state.files :: h.state.files[n] == old(h.state.files)[n]
    ensures forall n | n in old(h.state.files) && n !in names :: n in h.state.files
    ensures ok ==> forall n | n in names :: n !in h.state.files
    ensures ok ==> h.fileErrors == old(h.fileErrors)
    ensures !ok ==> h.fileErrors > old(h.fileErrors) ||
                    exists n | n in names :: n in old(h.state.files) && old(h.state.files)[n] == Irregular
  {
    for i := 0 to |names|
      invariant h.Goes() && h.sent == old(h.sent) && h.fileErrors == old(h.fileErrors)
      invariant h.state == old(h.state).(files := old(h.state.files) - Firsts(names, i))
    {
      assert Firsts(names, i + 1) == Firsts(names, i) + {names[i]};
      ok := RemoveIfPresent(h, names[i]);
      if !ok {
        return;
      }
    }
    return true;
  }

  /** `remove_managed_vm_directory` */
  method RemoveManagedDirectory(h: Host) returns (ok: bool)
    requires h.Valid() && h.state.domain == Absent
    modifies h
    ensures h.Goes() && h.sent == old(h.sent) && h.state.domain == Absent
    ensures ok ==> h.state == State(map[], false, Absent)
    ensures !ok ==> h.fileErrors > old(h.fileErrors) || !old(h.state.dir) || !OnlyManaged(old(h.state.files))
    ensures !OnlyManaged(old(h.state.files)) ==> !ok && h.state == old(h.state)
    ensures h.state.files.Keys <= old(h.state.files.Keys)
    ensures forall n | n in h.state.files :: h.state.files[n] == old(h.state.files)[n]
  {
    ok := EnsureOnlyManaged(h);
    if !ok {
      return;
    }
    ok := RemoveAll(h, MANAGED);
    if !ok {
      return;
    }
    assert forall n | n in MANAGED_NAMES :: n in MANAGED;
    assert h.state.files == map[];
    ok := EnsureOnlyManaged(h);
    if !ok {
      return;
    }
    ok := h.RemoveDir();
  }

  // ----- Create -----

  /** The part of a create task that reaches the files; `metaData`: unless its generator refuses the name. */
  datatype CreateRequest =
    CreateRequest(image: string, diskGb: nat, userData: string, metaData: Option<string>, network: Option<string>)

  function SeedContent(userData: string, metaData: string, network: Option<Content>): Content {
    SeedOf(Text(userData), Text(metaData), network)
  }

  /** The files of a created VM. */
  function CreatedFiles(r: CreateRequest): Files
    requires r.metaData.Some?
  {
    var network := if r.network.Some? then Some(Text(r.network.value)) else None;
    var seed := SeedContent(r.userData, r.metaData.value, network);
    var files := map[
      Disk := Regular(Overlay(r.image, r.diskGb)), UserData := Regular(Text(r.userData)),
      MetaData := Regular(Text(r.metaData.value)), Seed := Regular(seed), DomainXml := Regular(Describes)];
    if r.network.Some? then files[NetworkConfig := Regular(Text(r.network.value))] else files
  }

  predicate NoManaged(files: Files) { forall n | n in MANAGED_NAMES :: n !in files }

  /** `ensure_create_output_paths_are_absent` */
  method EnsureOutputsAbsent(h: Host) returns (ok: bool)
    requires h.Valid()
    modifies h`fileErrors
    ensures h.Goes()
    ensures ok ==> NoManaged(h.state.files) && h.fileErrors == old(h.fileErrors)
    ensures !ok ==> h.fileErrors > old(h.fileErrors) || !NoManaged(h.state.files)
  {
    for i := 0 to |MANAGED|
      invariant h.Goes() && h.fileErrors == old(h.fileErrors)
      invariant forall k | 0 <= k < i :: MANAGED[k] !in h.state.files
    {
      var look := h.LookAt(MANAGED[i]);
      if look != Missing {
        return false;
      }
    }
    assert forall n | n in MANAGED_NAMES :: n in MANAGED;
    return true;
  }

  function SeedFrom(files: Files, userData: FileName, metaData: FileName, network: Option<FileName>): Content
    requires IsRegular(files, userData) && IsRegular(files, metaData)
    requires network.Some? ==> IsRegular(files, network.value)
  {
    SeedOf(files[userData].content, files[metaData].content,
           if network.Some? then Some(files[network.value].content) else None)
  }

  /** `create_seed_iso`: one tool, else the other. */
  method CreateSeed(h: Host, seed: FileName, userData: FileName, metaData: FileName, network: Option<FileName>)
    returns (ok: bool)
    requires h.Valid() && h.state.dir && seed != DomainXml && seed !in {userData, metaData} && network != Some(seed)
    requires IsRegular(h.state.files, userData) && IsRegular(h.state.files, metaData)
    requires network.Some? ==> IsRegular(h.state.files, network.value)
    modifies h
    ensures h.Goes() && h.fileErrors == old(h.fileErrors) && h.sent == old(h.sent)
    ensures h.state == old(h.state).(files := h.state.files)
    ensures h.state.files == old(h.state.files) || IsRegular(h.state.files, seed)
    ensures SameBut(old(h.state.files), h.state.files, {seed})
    ensures ok ==> seed in h.state.files
    ensures ok ==> h.state.files[seed] == Regular(SeedFrom(old(h.state.files), userData, metaData, network))
    ensures !ok ==> h.failures >= old(h.failures) + 2
  {
    var content := SeedFrom(h.state.files, userData, metaData, network);
    ok := h.Produce(seed, content);
    if !ok {
      ok := h.Produce(seed, content);
    }
  }

  /** The files made so far: nothing managed before, only regular managed files added since. */
  ghost predicate MadeFrom(before: Files, now: Files) {
    && SameBut(before, now, MANAGED_NAMES)
    && forall n | n in now && n in MANAGED_NAMES :: now[n].Regular?
  }

  /** The cloud-init sources within `create_vm_artifacts`. */
  method WriteCloudInit(h: Host, r: CreateRequest) returns (ok: bool, network: Option<FileName>)
    requires h.Valid() && h.state.dir
    requires UserData !in h.state.files && MetaData !in h.state.files && NetworkConfig !in h.state.files
    modifies h
    ensures h.Goes() && h.fileErrors == old(h.fileErrors) && h.sent == old(h.sent)
    ensures h.state == old(h.state).(files := h.state.files)
    ensures SameBut(old(h.state.files), h.state.files, {UserData, MetaData, NetworkConfig})
    ensures forall n | n in h.state.files && n in {UserData, MetaData, NetworkConfig} :: h.state.files[n].Regular?
    ensures ok ==> r.metaData.Some? && network == (if r.network.Some? then Some(NetworkConfig) else None)
    ensures ok ==> UserData in h.state.files && h.state.files[UserData] == Regular(Text(r.userData))
    ensures ok ==> MetaData in h.state.files && h.state.files[MetaData] == Regular(Text(r.metaData.value))
    ensures ok ==>
              if r.network.None? then NetworkConfig !in h.state.files
              else NetworkConfig in h.state.files && h.state.files[NetworkConfig] == Regular(Text(r.network.value))
    ensures !ok ==> h.failures > old(h.failures) || r.metaData.None?
  {
    network := None;
    ok := h.WriteNew(UserData, Text(r.userData));
    if !ok {
      return;
    }
    if r.metaData.None? {
      return false, None;
    }
    ok := h.WriteNew(MetaData, Text(r.metaData.value));
    if !ok || r.network.None? {
      return;
    }
    ok := h.WriteNew(NetworkConfig, Text(r.network.value));
    network := Some(NetworkConfig);
  }

  lemma MadeMore(before: Files, f: Files, now: Files, names: set<FileName>)
    requires MadeFrom(before, f) && SameBut(f, now, names) && names <= MANAGED_NAMES
    requires forall n | n in now && n in names :: now[n].Regular?
    ensures MadeFrom(before, now)
  {
  }

  lemma CreatedAll(before: Files, now: Files, r: CreateRequest)
    requires NoManaged(before) && MadeFrom(before, now) && r.metaData.Some?
    requires forall n | n in MANAGED_NAMES :: n in now || n == NetworkConfig
    requires now[Disk] == Regular(Overlay(r.image, r.diskGb)) && now[DomainXml] == Regular(Describes)
    requires now[UserData] == Regular(Text(r.userData)) && now[MetaData] == Regular(Text(r.metaData.value))
    requires r.network.Some? <==> NetworkConfig in now
    requires r.network.Some? ==> now[NetworkConfig] == Regular(Text(r.network.value))
    requires var network := if r.network.Some? then Some(NetworkConfig) else None;
             now[Seed] == Regular(SeedFrom(now, UserData, MetaData, network))
    ensures now == before + CreatedFiles(r)
  {
  }

  /** The files before the seed are there. */
  ghost predicate SourcesReady(before: Files, now: Files, r: CreateRequest, network: Option<FileName>) {
    && MadeFrom(before, now) && Seed !in now && DomainXml !in now && r.metaData.Some?
    && Disk in now && now[Disk] == Regular(Overlay(r.image, r.diskGb))
    && UserData in now && now[UserData] == Regular(Text(r.userData))
    && MetaData in now && now[MetaData] == Regular(Text(r.metaData.value))
    && network == (if r.network.Some? then Some(NetworkConfig) else None)
    && (if r.network.None? then NetworkConfig !in now
        else NetworkConfig in now && now[NetworkConfig] == Regular(Text(r.network.value)))
  }

  /** `create_vm_artifacts` up to the seed. */
  method CreateSources(h: Host, r: CreateRequest) returns (ok: bool, network: Option<FileName>)
    requires h.Valid() && h.state.dir && NoManaged(h.state.files)
    modifies h
    ensures h.Goes() && h.fileErrors == old(h.fileErrors) && h.sent == old(h.sent)
    ensures h.state == old(h.state).(files := h.state.files)
    ensures MadeFrom(old(h.state.files), h.state.files)
    ensures ok ==> SourcesReady(old(h.state.files), h.state.files, r, network)
    ensures !ok ==> h.failures > old(h.failures) || r.metaData.None?
  {
    hide Safe, HasMetadata;
    network := None;
    ok := h.CreateOverlay(Disk, r.image, r.diskGb);
    if !ok {
      return;
    }
    ok, network := WriteCloudInit(h, r);
  }

  /** `create_vm_artifacts` */
  method CreateArtifacts(h: Host, r: CreateRequest) returns (ok: bool)
    requires h.Valid() && h.state.dir && h.state.domain == Absent && NoManaged(h.state.files)
    modifies h
    ensures h.Goes() && h.fileErrors == old(h.fileErrors) && h.sent == old(h.sent)
    ensures h.state == old(h.state).(files := h.state.files)
    ensures MadeFrom(old(h.state.files), h.state.files)
    ensures ok ==> r.metaData.Some? && h.state.files == old(h.state.files) + CreatedFiles(r)
    ensures !ok ==> h.failures > old(h.failures) || r.metaData.None?
  {
    hide Safe, HasMetadata, CreatedFiles, MayDrift, MadeFrom, NoManaged, SameBut;
    ghost var before := h.state.files;
    var network: Option<FileName>;
    ok, network := CreateSources(h, r);
    if !ok {
      return;
    }
    ghost var f := h.state.files;
    ok := CreateSeed(h, Seed, UserData, MetaData, network);
    MadeMore(before, f, h.state.files, {Seed});
    if !ok {
      return;
    }
    f := h.state.files;
    ok := h.WriteNew(DomainXml, Describes);
    MadeMore(before, f, h.state.files, {DomainXml});
    if ok {
      CreatedAll(before, h.state.files, r);
    }
  }

  /** `cleanup_failed_define` */
  method CleanupFailedDefine(h: Host) returns (ok: bool)
    requires h.Valid()
    modifies h
    ensures h.Goes() && h.sent == old(h.sent)
    ensures ok ==> h.state == State(map[], false, Absent)
    ensures !ok ==> h.state.files == old(h.state.files) || h.state.domain == Absent
    ensures !ok && h.state.files != old(h.state.files) ==> h.fileErrors > old(h.fileErrors)
    ensures !OnlyManaged(old(h.state.files)) ==> h.state.files == old(h.state.files)
    ensures NothingFailed(old(h.failures), old(h.fileErrors), h) && old(h.state.dir) && OnlyManaged(old(h.state.files))
            && old(h.state.domain) == Absent ==>
              ok
    ensures old(h.state.domain) == ShutOff ==> h.state == old(h.state)
  {
    var reading := h.Domstate();
    if !reading.NotFound? {
      return false;
    }
    ok := RemoveManagedDirectory(h);
  }

  /** `cleanup_defined_create_failure` */
  method CleanupDefinedCreateFailure(h: Host) returns (ok: bool)
    requires h.Valid()
    modifies h
    ensures h.Goes() && (h.sent == old(h.sent) || h.sent == old(h.sent) + [UndefineDomain])
    ensures ok ==> h.state == State(map[], false, Absent)
    ensures !ok ==> h.state.files == old(h.state.files) || h.state.domain == Absent
    ensures !ok && h.state.files != old(h.state.files) ==> h.fileErrors > old(h.fileErrors)
    ensures !OnlyManaged(old(h.state.files)) ==> h.state.files == old(h.state.files)
    ensures NothingFailed(old(h.failures), old(h.fileErrors), h) && old(h.state.dir) && OnlyManaged(old(h.state.files))
            && old(h.state.domain) == ShutOff ==>
              ok
  {
    ok := EnsureStopped(h);
    if !ok {
      return;
    }
    ok := h.Undefine();
    if !ok {
      return;
    }
    ok := RemoveManagedDirectory(h);
  }

  /** Every created file is there, with its contents, beside what was there before. */
  ghost predicate Kept(before: Files, s: State, r: CreateRequest) {
    r.metaData.Some? && s.files == before + CreatedFiles(r)
  }

  /** A create without fault: it succeeds, or the domain was started, was live, and is not running any more or yet. */
  twostate predicate Created(h: Host, ok: bool, r: CreateRequest)
    requires r.metaData.Some?
    reads h
  {
    && Kept(old(h.state.files), h.state, r)
    && h.sent == old(h.sent) + [DefineDomain, StartDomain]
    && LiveWith(h.past, |old(h.past)|, h.state.files)
    && (ok || h.state.domain != Running)
  }

  /**
   A create with at most one fault on a new directory: it succeeds, or nothing is left, or the domain was live, or
   `define` reported a failure and took effect all the same.
   */
  twostate predicate CreatedOrCleaned(h: Host, ok: bool)
    reads h
  {
    || ok
    || (h.state.domain == Absent && h.state.files == map[])
    || LiveWith(h.past, |old(h.past)|, h.state.files)
    || (h.sent == old(h.sent) + [DefineDomain] && h.state.domain == ShutOff)
  }

  /**
   `create_vm`. `accepted`: what validation of the request says.
   With no foreign entries and no file errors it has three exits: the domain is seen running with all its
   files; nothing is left; or `define` was attempted and every created file is kept.
   */
  method CreateVm(h: Host, accepted: bool, r: CreateRequest) returns (ok: bool)
    requires h.Valid()
    modifies h
    ensures h.Goes() && UpTo(old(h.sent), h.sent, [DefineDomain, StartDomain, UndefineDomain])
    ensures h.sent != old(h.sent) || h.state.files != old(h.state.files) ==> h.checks >= old(h.checks) + 2
    ensures !NoManaged(old(h.state.files)) || !accepted ==> !ok && h.state == old(h.state)
    ensures ok ==> NoManaged(old(h.state.files)) && h.state.domain == Running && Kept(old(h.state.files), h.state, r)
    ensures !ok && old(h.state.files) == map[] && h.fileErrors == old(h.fileErrors) ==>
              || (h.state.domain == Absent && h.state.files == map[])
              || (h.sent != old(h.sent) && Kept(map[], h.state, r))
    ensures NoManaged(old(h.state.files)) && old(h.state.files) != map[] && h.sent != old(h.sent) ==>
              Kept(old(h.state.files), h.state, r)
    ensures NoManaged(old(h.state.files)) ==> h.state.domain == Absent || Kept(old(h.state.files), h.state, r)
    ensures NothingFailed(old(h.failures), old(h.fileErrors), h) && accepted && r.metaData.Some?
            && NoManaged(old(h.state.files)) ==>
              Created(h, ok, r)
    ensures h.failures <= old(h.failures) + 1 && h.fileErrors == old(h.fileErrors) && old(h.state.files) == map[] ==>
              CreatedOrCleaned(h, ok)
  {
    ok := h.Inspect();
    if !ok || !accepted {
      return false;
    }
    ok := h.CreateDir();
    if !ok {
      return;
    }
    ok := EnsureOutputsAbsent(h);
    if !ok {
      return;
    }
    ok := h.Inspect();
    if !ok {
      return;
    }
    ok := CreateAndStart(h, r);
  }

  /** `create_vm` from `create_vm_artifacts` on. */
  method CreateAndStart(h: Host, r: CreateRequest) returns (ok: bool)
    requires h.Valid() && h.state.dir && h.state.domain == Absent && NoManaged(h.state.files)
    modifies h
    ensures h.Goes() && UpTo(old(h.sent), h.sent, [DefineDomain, StartDomain, UndefineDomain])
    ensures ok ==> h.state.domain == Running && Kept(old(h.state.files), h.state, r)
    ensures !ok && old(h.state.files) == map[] && h.fileErrors == old(h.fileErrors) ==>
              || (h.state.domain == Absent && h.state.files == map[])
              || (h.sent != old(h.sent) && Kept(map[], h.state, r))
    ensures old(h.state.files) != map[] && h.sent != old(h.sent) ==> Kept(old(h.state.files), h.state, r)
    ensures h.state.domain == Absent || Kept(old(h.state.files), h.state, r)
    ensures r.metaData.Some? && h.failures == old(h.failures) ==> Created(h, ok, r)
    ensures h.failures <= old(h.failures) + 1 && h.fileErrors == old(h.fileErrors) && old(h.state.files) == map[] ==>
              CreatedOrCleaned(h, ok)
  {
    hide CreatedFiles;
    ok := CreateArtifacts(h, r);
    if !ok {
      var _ := RemoveManagedDirectory(h);
      return;
    }
    CreatedIsComplete(old(h.state.files), r);
    ok := h.Define();
    if !ok {
      var _ := CleanupFailedDefine(h);
      return;
    }
    ok := h.Start();
    if !ok {
      var _ := CleanupDefinedCreateFailure(h);
      return;
    }
    ok := WaitFor(h, Running);
  }

  lemma CreatedIsComplete(before: Files, r: CreateRequest)
    requires r.metaData.Some? && NoManaged(before)
    ensures HasMetadata(before + CreatedFiles(r))
    ensures OnlyManaged(before + CreatedFiles(r)) <==> before == map[]
    ensures before == map[] ==> before + CreatedFiles(r) == CreatedFiles(r)
  {
    var all := before + CreatedFiles(r);
    if before != map[] {
      var n :| n in before;
      assert n in all && n !in MANAGED_NAMES;
    }
  }

  // ----- Power commands -----

  datatype Power = PowerStart | PowerShutdown | PowerReboot

  function CommandOf(p: Power): Command {
    match p
    case PowerStart => StartDomain
    case PowerShutdown => ShutdownDomain
    case PowerReboot => RebootDomain
  }

  /** `virsh_vm_command`: never touches a file, and touches the domain only behind its metadata. */
  method VirshVmCommand(h: Host, command: Power) returns (ok: bool)
    requires h.Valid()
    modifies h
    ensures h.Goes() && (h.sent == old(h.sent) || h.sent == old(h.sent) + [CommandOf(command)])
    ensures HasMetadata(h.state.files) && h.fileErrors == old(h.fileErrors) ==> h.sent != old(h.sent)
    ensures h.state == old(h.state).(domain := h.state.domain)
    ensures old(h.state.domain) == Absent <==> h.state.domain == Absent
    ensures !HasMetadata(h.state.files) || old(h.state.domain) == Absent ==> !ok && h.state == old(h.state)
    ensures !HasMetadata(h.state.files) ==> h.sent == old(h.sent)
    ensures ok ==> h.sent != old(h.sent) && h.state.domain == if command.PowerShutdown? then ShutOff else Running
    ensures !command.PowerStart? && old(h.state.domain) == ShutOff ==> h.state.domain == ShutOff
    ensures !ok && NothingFailed(old(h.failures), old(h.fileErrors), h) ==>
              || !HasMetadata(h.state.files) || h.state.domain == Absent
              || h.state.domain != if command.PowerShutdown? then ShutOff else Running
    ensures command.PowerStart? && HasMetadata(h.state.files) && old(h.state.domain) == ShutOff
            && NothingFailed(old(h.failures), old(h.fileErrors), h) ==>
              LiveWith(h.past, |old(h.past)|, h.state.files)
  {
    ok := EnsureMetadata(h);
    if !ok {
      return;
    }
    if command.PowerStart? {
      ok := h.Start();
    } else {
      ok := h.Signal(CommandOf(command));
    }
    if !ok {
      return;
    }
    ok := WaitFor(h, if command.PowerShutdown? then ShutOff else Running);
  }

  // ----- Delete -----

  /**
   `delete_vm`: removes the domain, then everything; on failure either no file is gone, or the domain is.
   A VM whose domain is gone cannot be deleted this way.
   */
  method DeleteVm(h: Host) returns (ok: bool)
    requires h.Valid()
    modifies h
    ensures h.Goes()
    ensures UpTo(old(h.sent), h.sent, [DestroyDomain, UndefineDomain])
    ensures ok ==> h.sent == old(h.sent) + [DestroyDomain, UndefineDomain]
    ensures ok ==> h.state == State(map[], false, Absent)
    ensures ok ==> old(h.state.domain) != Absent && HasMetadata(old(h.state.files)) && OnlyManaged(old(h.state.files))
    ensures !OnlyManaged(old(h.state.files)) || !HasMetadata(old(h.state.files)) ==> h.state == old(h.state)
    ensures old(h.state.domain) == Absent ==> h.state == old(h.state)
    ensures !ok && h.fileErrors == old(h.fileErrors) ==> h.state.files == old(h.state.files)
    ensures h.state.files == old(h.state.files) || h.state.domain == Absent
    ensures h.state.files.Keys <= old(h.state.files.Keys)
    ensures NothingFailed(old(h.failures), old(h.fileErrors), h) ==>
              (ok <==> HasMetadata(old(h.state.files)) && OnlyManaged(old(h.state.files))
                       && old(h.state.domain) != Absent)
  {
    ok := EnsureMetadata(h);
    if !ok {
      return;
    }
    ok := EnsureOnlyManaged(h);
    if !ok {
      return;
    }
    var _ := h.Destroy();
    ok := EnsureStopped(h);
    if !ok {
      return;
    }
    ok := h.Undefine();
    if !ok {
      return;
    }
    ok := RemoveManagedDirectory(h);
  }

  // ----- Reinstall -----

  const STAGED := [StagedDisk, StagedSeed, StagedUserData, StagedMetaData]

  const STAGED_NAMES := {StagedDisk, StagedSeed, StagedUserData, StagedMetaData}

  /** The staged artifacts and the live files they replace, in the order of the commit. */
  const PAIRS := [(StagedDisk, Disk), (StagedSeed, Seed), (StagedUserData, UserData), (StagedMetaData, MetaData)]

  datatype ReinstallRequest = ReinstallRequest(image: string, diskGb: nat, userData: string, metaData: Option<string>)

  /** What a reinstall stages, given the network configuration it finds. */
  function StagedFiles(r: ReinstallRequest, network: Option<Content>): Files
    requires r.metaData.Some?
  {
    map[StagedDisk := Regular(Overlay(r.image, r.diskGb)),
        StagedUserData := Regular(Text(r.userData)),
        StagedMetaData := Regular(Text(r.metaData.value)),
        StagedSeed := Regular(SeedContent(r.userData, r.metaData.value, network))]
  }

  function NetworkOf(files: Files): Option<Content> {
    if IsRegular(files, NetworkConfig) then Some(files[NetworkConfig].content) else None
  }

  /** The directory after a reinstall: new disk, seed and cloud-init sources, the rest as before. */
  function Reinstalled(files: Files, r: ReinstallRequest): Files
    requires r.metaData.Some?
  {
    files[Disk := Regular(Overlay(r.image, r.diskGb))]
         [UserData := Regular(Text(r.userData))]
         [MetaData := Regular(Text(r.metaData.value))]
         [Seed := Regular(SeedContent(r.userData, r.metaData.value, NetworkOf(files)))]
  }

  ghost predicate NoneStaged(files: Files) { forall n | n in STAGED_NAMES :: n !in files }

  /** `ensure_reinstall_temp_artifacts_absent` */
  method EnsureStagedAbsent(h: Host) returns (ok: bool)
    requires h.Valid()
    modifies h`fileErrors
    ensures h.Goes()
    ensures ok ==> NoneStaged(h.state.files) && h.fileErrors == old(h.fileErrors)
    ensures !ok ==> h.fileErrors > old(h.fileErrors) || !NoneStaged(h.state.files)
  {
    for i := 0 to |STAGED|
      invariant h.Goes() && h.fileErrors == old(h.fileErrors)
      invariant forall k | 0 <= k < i :: STAGED[k] !in h.state.files
    {
      var look := h.LookAt(STAGED[i]);
      if look != Missing {
        return false;
      }
    }
    assert forall n | n in STAGED_NAMES :: n in STAGED;
    return true;
  }

  lemma StagedAll(before: Files, now: Files, r: ReinstallRequest)
    requires SameBut(before, now, STAGED_NAMES) && r.metaData.Some?
    requires forall n | n in STAGED_NAMES :: n in now
    requires now[StagedDisk] == Regular(Overlay(r.image, r.diskGb)) && now[StagedUserData] == Regular(Text(r.userData))
    requires now[StagedMetaData] == Regular(Text(r.metaData.value))
    requires now[StagedSeed] == Regular(SeedContent(r.userData, r.metaData.value, NetworkOf(before)))
    ensures now == before + StagedFiles(r, NetworkOf(before))
  {
  }

  /** The part of `create_reinstall_artifacts` before the seed. */
  method StageSources(h: Host, r: ReinstallRequest) returns (ok: bool)
    requires h.Valid() && h.state.dir && NoneStaged(h.state.files)
    modifies h
    ensures h.Goes() && h.fileErrors == old(h.fileErrors) && h.sent == old(h.sent)
    ensures h.state == old(h.state).(files := h.state.files)
    ensures SameBut(old(h.state.files), h.state.files, {StagedDisk, StagedUserData, StagedMetaData})
    ensures forall n | n in {StagedDisk, StagedUserData, StagedMetaData} && n in h.state.files ::
          h.state.files[n].Regular?
    ensures ok ==> r.metaData.Some?
    ensures ok ==> forall n | n in {StagedDisk, StagedUserData, StagedMetaData} :: n in h.state.files
    ensures ok ==> h.state.files[StagedDisk] == Regular(Overlay(r.image, r.diskGb))
    ensures ok ==> h.state.files[StagedUserData] == Regular(Text(r.userData))
    ensures ok ==> h.state.files[StagedMetaData] == Regular(Text(r.metaData.value))
    ensures !ok ==> h.failures > old(h.failures) || r.metaData.None?
  {
    hide Safe, HasMetadata;
    ok := h.CreateOverlay(StagedDisk, r.image, r.diskGb);
    if !ok {
      return;
    }
    ok := h.WriteNew(StagedUserData, Text(r.userData));
    if !ok {
      return;
    }
    if r.metaData.None? {
      return false;
    }
    ok := h.WriteNew(StagedMetaData, Text(r.metaData.value));
  }

  /** `create_reinstall_artifacts` */
  method CreateStaged(h: Host, r: ReinstallRequest, network: Option<FileName>) returns (ok: bool)
    requires h.Valid() && h.state.dir && NoneStaged(h.state.files)
    requires network == if NetworkConfig in h.state.files then Some(NetworkConfig) else None
    requires NetworkConfig in h.state.files ==> h.state.files[NetworkConfig].Regular?
    modifies h
    ensures h.Goes() && h.fileErrors == old(h.fileErrors) && h.sent == old(h.sent)
    ensures h.state == old(h.state).(files := h.state.files)
    ensures SameBut(old(h.state.files), h.state.files, STAGED_NAMES)
    ensures forall n | n in STAGED_NAMES && n in h.state.files :: h.state.files[n].Regular?
    ensures ok ==> r.metaData.Some?
    ensures ok ==> h.state.files == old(h.state.files) + StagedFiles(r, NetworkOf(old(h.state.files)))
    ensures !ok ==> h.failures > old(h.failures) || r.metaData.None?
  {
    hide Safe, HasMetadata, StagedFiles;
    ghost var before := h.state.files;
    ok := StageSources(h, r);
    if !ok {
      return;
    }
    ok := CreateSeed(h, StagedSeed, StagedUserData, StagedMetaData, network);
    if ok {
      StagedAll(before, h.state.files, r);
    }
  }

  /** Staging with its cleanup: all four artifacts, or, unless the cleanup fails, none. */
  method Prepare(h: Host, r: ReinstallRequest, network: Option<FileName>) returns (ok: bool)
    requires h.Valid() && h.state.dir && !Live(h.state.domain) && forall n | n in STAGED_NAMES :: n !in h.state.files
    requires network == if NetworkConfig in h.state.files then Some(NetworkConfig) else None
    requires NetworkConfig in h.state.files ==> h.state.files[NetworkConfig].Regular?
    modifies h
    ensures h.Goes() && h.sent == old(h.sent)
    ensures h.state == old(h.state).(files := h.state.files)
    ensures SameBut(old(h.state.files), h.state.files, STAGED_NAMES)
    ensures ok ==> r.metaData.Some?
    ensures ok ==> h.state.files == old(h.state.files) + StagedFiles(r, NetworkOf(old(h.state.files)))
    ensures ok ==> h.fileErrors == old(h.fileErrors)
    ensures !ok && h.fileErrors == old(h.fileErrors) ==> h.state == old(h.state)
    ensures !ok ==> h.failures > old(h.failures) || r.metaData.None?
  {
    ghost var before := h.state.files;
    ok := CreateStaged(h, r, network);
    if !ok {
      var cleaned := RemoveAll(h, STAGED);
      if cleaned {
        assert forall n | n in STAGED_NAMES :: n in STAGED;
        assert h.state.files == before;
      }
    }
  }

  /** The names touched by the first `i` pairs. */
  function PairNames(i: nat): set<FileName>
    requires i <= |PAIRS|
  {
    if i == 0 then {} else PairNames(i - 1) + {PAIRS[i - 1].0, PAIRS[i - 1].1}
  }

  /** What the first loop of the commit checks. */
  ghost predicate CanCommit(files: Files) {
    forall k | 0 <= k < |PAIRS| ::
      IsRegular(files, PAIRS[k].0) && (PAIRS[k].1 in files ==> files[PAIRS[k].1].Regular?)
  }

  /** The first `i` pairs are installed, the others untouched. */
  ghost predicate InstalledUpTo(before: Files, now: Files, i: nat)
    requires i <= |PAIRS| && CanCommit(before)
  {
    && SameBut(before, now, PairNames(i))
    && forall k | 0 <= k < i :: PAIRS[k].0 !in now && PAIRS[k].1 in now && now[PAIRS[k].1] == before[PAIRS[k].0]
  }

  /** `validate_prepared_reinstall_artifact` */
  method ValidatePrepared(h: Host, source: FileName, target: FileName) returns (ok: bool)
    requires h.Valid()
    modifies h`fileErrors
    ensures h.Goes() && (ok ==> h.fileErrors == old(h.fileErrors))
    ensures ok ==> IsRegular(h.state.files, source) && (target in h.state.files ==> h.state.files[target].Regular?)
    ensures !ok && h.fileErrors == old(h.fileErrors) ==>
              !(IsRegular(h.state.files, source) && (target in h.state.files ==> h.state.files[target].Regular?))
  {
    var look := h.LookAt(source);
    if look != Present {
      return false;
    }
    look := h.LookAt(target);
    ok := look != Rejected;
  }

  /** `replace_with_prepared_reinstall_artifact` */
  method ReplaceWithPrepared(h: Host, source: FileName, target: FileName) returns (ok: bool)
    requires h.Valid() && !Live(h.state.domain) && DomainXml !in {source, target} && source != target
    modifies h
    ensures h.Goes() && h.sent == old(h.sent)
    ensures h.state == old(h.state).(files := h.state.files)
    ensures SameBut(old(h.state.files), h.state.files, {source, target})
    ensures ok ==> h.fileErrors == old(h.fileErrors)
    ensures ok ==> source in old(h.state.files) && source !in h.state.files && target in h.state.files
    ensures ok ==> h.state.files[target] == old(h.state.files)[source]
    ensures !ok && IsRegular(old(h.state.files), source)
            && (target in old(h.state.files) ==> old(h.state.files)[target].Regular?) ==>
              h.fileErrors > old(h.fileErrors)
  {
    var look := h.LookAt(source);
    if look != Present {
      return false;
    }
    look := h.LookAt(target);
    if look == Rejected {
      return false;
    }
    if look == Present {
      ok := h.RemoveFile(target);
      if !ok {
        return;
      }
    }
    ok := h.Rename(source, target);
  }

  /**
   `commit_reinstall_artifacts`: a commit that fails validation changes nothing; one that passes it can only
   fail on a file error, and otherwise leaves every live name with its prepared content.
   */
  method CommitReinstall(h: Host) returns (ok: bool)
    requires h.Valid() && !Live(h.state.domain)
    modifies h
    ensures h.Goes() && h.sent == old(h.sent)
    ensures h.state == old(h.state).(files := h.state.files)
    ensures SameBut(old(h.state.files), h.state.files, PairNames(4))
    ensures !CanCommit(old(h.state.files)) ==> !ok && h.state == old(h.state)
    ensures CanCommit(old(h.state.files)) && h.fileErrors == old(h.fileErrors) ==> ok
    ensures ok ==> InstalledUpTo(old(h.state.files), h.state.files, 4) && h.fileErrors == old(h.fileErrors)
  {
    for i := 0 to |PAIRS|
      invariant h.Goes() && h.fileErrors == old(h.fileErrors) && h.state == old(h.state) && h.sent == old(h.sent)
      invariant forall k | 0 <= k < i ::
                  && IsRegular(h.state.files, PAIRS[k].0)
                  && (PAIRS[k].1 in h.state.files ==> h.state.files[PAIRS[k].1].Regular?)
    {
      ok := ValidatePrepared(h, PAIRS[i].0, PAIRS[i].1);
      if !ok {
        return;
      }
    }
    ok := InstallAll(h);
  }

  lemma SameButBoth(a: Files, b: Files, c: Files, some: set<FileName>, more: set<FileName>, all: set<FileName>)
    requires SameBut(a, b, some) && SameBut(b, c, more) && some <= all && more <= all
    ensures SameBut(a, c, all)
  {
  }

  /** No name occurs twice in the pairs. */
  lemma PairsApart(i: nat, k: nat)
    requires i < |PAIRS| && k < |PAIRS| && i != k
    ensures {PAIRS[i].0, PAIRS[i].1} !! {PAIRS[k].0, PAIRS[k].1}
  {
  }

  /** The names of the first `i` pairs, and that no name occurs twice. */
  lemma PairNamesAre()
    ensures PairNames(0) == {} && PairNames(1) == {StagedDisk, Disk}
    ensures PairNames(2) == {StagedDisk, Disk, StagedSeed, Seed}
    ensures PairNames(3) == {StagedDisk, Disk, StagedSeed, Seed, StagedUserData, UserData}
    ensures PairNames(4) == {StagedDisk, Disk, StagedSeed, Seed, StagedUserData, UserData, StagedMetaData, MetaData}
  {
  }

  lemma PairNamesGrow(i: nat)
    requires i < |PAIRS|
    ensures PairNames(i) + {PAIRS[i].0, PAIRS[i].1} <= PairNames(4)
    ensures PAIRS[i].0 !in PairNames(i) && PAIRS[i].1 !in PairNames(i)
  {
    PairNamesAre();
    hide PairNames;
    assert i == 0 || i == 1 || i == 2 || i == 3;
  }

  /** The next pair is still as validated. */
  lemma StillPrepared(before: Files, now: Files, i: nat)
    requires i < |PAIRS| && CanCommit(before) && InstalledUpTo(before, now, i)
    ensures IsRegular(now, PAIRS[i].0) && now[PAIRS[i].0] == before[PAIRS[i].0]
    ensures PAIRS[i].1 in now ==> now[PAIRS[i].1].Regular?
  {
    PairNamesGrow(i);
    hide PairNames;
  }

  lemma InstallsNext(before: Files, mid: Files, now: Files, i: nat)
    requires i < |PAIRS| && CanCommit(before) && InstalledUpTo(before, mid, i)
    requires var (source, target) := PAIRS[i];
             && SameBut(mid, now, {source, target})
             && source in mid && source !in now && target in now && now[target] == mid[source]
    ensures InstalledUpTo(before, now, i + 1)
  {
    StillPrepared(before, mid, i);
    PairNamesGrow(i);
    SameButBoth(before, mid, now, PairNames(i), {PAIRS[i].0, PAIRS[i].1}, PairNames(i + 1));
    hide CanCommit, IsRegular;
    forall k | 0 <= k < i
      ensures PAIRS[k].0 !in now && PAIRS[k].1 in now && now[PAIRS[k].1] == before[PAIRS[k].0]
    {
      PairsApart(k, i);
    }
  }

  lemma SameButPairs(before: Files, mid: Files, now: Files, i: nat)
    requires i < |PAIRS| && SameBut(before, mid, PairNames(4)) && SameBut(mid, now, {PAIRS[i].0, PAIRS[i].1})
    ensures SameBut(before, now, PairNames(4))
  {
    PairNamesGrow(i);
    SameButBoth(before, mid, now, PairNames(4), {PAIRS[i].0, PAIRS[i].1}, PairNames(4));
  }

  method InstallAll(h: Host) returns (ok: bool)
    requires h.Valid() && !Live(h.state.domain) && CanCommit(h.state.files)
    modifies h
    ensures h.Goes() && h.sent == old(h.sent)
    ensures h.state == old(h.state).(files := h.state.files)
    ensures SameBut(old(h.state.files), h.state.files, PairNames(4))
    ensures ok <==> h.fileErrors == old(h.fileErrors)
    ensures ok ==> InstalledUpTo(old(h.state.files), h.state.files, 4)
  {
    ghost var before := h.state.files;
    assert InstalledUpTo(before, before, 0);
    hide InstalledUpTo, SameBut, CanCommit, PairNames, Safe;
    for i := 0 to |PAIRS|
      invariant h.Goes() && h.fileErrors == old(h.fileErrors) && h.sent == old(h.sent)
      invariant h.state == old(h.state).(files := h.state.files)
      invariant InstalledUpTo(before, h.state.files, i) && SameBut(before, h.state.files, PairNames(4))
    {
      ghost var mid := h.state.files;
      StillPrepared(before, mid, i);
      ok := ReplaceWithPrepared(h, PAIRS[i].0, PAIRS[i].1);
      SameButPairs(before, mid, h.state.files, i);
      if !ok {
        return;
      }
      InstallsNext(before, mid, h.state.files, i);
    }
    return true;
  }

  /** What preparation stages passes the validation of the commit. */
  lemma PreparedCanCommit(files: Files, r: ReinstallRequest)
    requires HasMetadata(files) && r.metaData.Some?
    requires UserData in files ==> files[UserData].Regular?
    requires MetaData in files ==> files[MetaData].Regular?
    ensures CanCommit(files + StagedFiles(r, NetworkOf(files)))
  {
  }

  /** Committing what preparation stages amounts to the reinstalled directory. */
  lemma CommittedIsReinstalled(files: Files, now: Files, r: ReinstallRequest)
    requires NoneStaged(files) && r.metaData.Some?
    requires var prepared := files + StagedFiles(r, NetworkOf(files));
             CanCommit(prepared) && InstalledUpTo(prepared, now, 4)
    ensures now == Reinstalled(files, r)
  {
    PairNamesAre();
    hide PairNames, CanCommit, SeedContent, NetworkOf;
    var prepared := files + StagedFiles(r, NetworkOf(files));
    InstalledAt(prepared, now, 0);
    InstalledAt(prepared, now, 1);
    InstalledAt(prepared, now, 2);
    InstalledAt(prepared, now, 3);
    forall n
      ensures n in now <==> n in Reinstalled(files, r)
      ensures n in now ==> n in Reinstalled(files, r) && now[n] == Reinstalled(files, r)[n]
    {
    }
  }

  lemma InstalledAt(before: Files, now: Files, k: nat)
    requires k < |PAIRS| && CanCommit(before) && InstalledUpTo(before, now, 4)
    ensures var (source, target) := PAIRS[k];
            source in before && source !in now && target in now && now[target] == before[source]
  {
    assert IsRegular(before, PAIRS[k].0);
  }

  /** Where a reinstall has nothing in its way. */
  ghost predicate MayReinstall(files: Files) {
    && HasMetadata(files) && NoneStaged(files)
    && forall n | n in {UserData, MetaData, NetworkConfig} && n in files :: files[n].Regular?
  }

  /** `reinstall_vm` up to the stop of the domain: the checks, which change nothing. */
  method CheckReinstall(h: Host, accepted: bool) returns (ok: bool)
    requires h.Valid()
    modifies h`fileErrors, h`failures, h`checks
    ensures h.Goes() && (ok ==> h.checks > old(h.checks))
    ensures ok ==> accepted && h.state.dir && HasMetadata(h.state.files) && NoneStaged(h.state.files)
    ensures ok ==> UserData in h.state.files ==> h.state.files[UserData].Regular?
    ensures ok ==> MetaData in h.state.files ==> h.state.files[MetaData].Regular?
    ensures !ok ==> || h.failures > old(h.failures) || h.fileErrors > old(h.fileErrors)
                    || !accepted || !MayReinstall(h.state.files)
  {
    if !accepted {
      return false;
    }
    ok := EnsureMetadata(h);
    if !ok {
      return;
    }
    ok := h.Inspect();
    if !ok {
      return;
    }
    var userData := h.LookAt(UserData);
    if userData == Rejected {
      return false;
    }
    var metaData := h.LookAt(MetaData);
    if metaData == Rejected {
      return false;
    }
    ok := EnsureStagedAbsent(h);
  }

  /** `reinstall_vm` while the domain is shut off, up to the commit. */
  method StageReinstall(h: Host, r: ReinstallRequest) returns (ok: bool)
    requires h.Valid() && h.state.domain == ShutOff && h.state.dir && NoneStaged(h.state.files)
    modifies h
    ensures h.Goes() && h.sent == old(h.sent)
    ensures h.state == old(h.state).(files := h.state.files)
    ensures SameBut(old(h.state.files), h.state.files, STAGED_NAMES)
    ensures ok ==> r.metaData.Some? && h.fileErrors == old(h.fileErrors)
    ensures ok ==> h.state.files == old(h.state.files) + StagedFiles(r, NetworkOf(old(h.state.files)))
    ensures !ok && h.fileErrors == old(h.fileErrors) ==> h.state == old(h.state)
    ensures !ok ==> || h.failures > old(h.failures) || h.fileErrors > old(h.fileErrors)
                    || r.metaData.None? || !MayReinstall(old(h.state.files))
  {
    hide StagedFiles, Safe;
    var config := h.LookAt(NetworkConfig);
    if config == Rejected {
      return false;
    }
    ok := Prepare(h, r, if config == Present then Some(NetworkConfig) else None);
  }

  /** `reinstall_vm` while the domain is shut off: stage, then commit. */
  method StageAndCommit(h: Host, r: ReinstallRequest) returns (ok: bool)
    requires h.Valid() && h.state.domain == ShutOff && h.state.dir
    requires HasMetadata(h.state.files) && NoneStaged(h.state.files)
    requires UserData in h.state.files ==> h.state.files[UserData].Regular?
    requires MetaData in h.state.files ==> h.state.files[MetaData].Regular?
    modifies h
    ensures h.Goes() && h.sent == old(h.sent)
    ensures h.state == old(h.state).(files := h.state.files)
    ensures SameBut(old(h.state.files), h.state.files, PairNames(4))
    ensures ok ==> r.metaData.Some? && h.state.files == Reinstalled(old(h.state.files), r)
    ensures !ok && h.fileErrors == old(h.fileErrors) ==> h.state == old(h.state)
    ensures !ok ==> || h.failures > old(h.failures) || h.fileErrors > old(h.fileErrors)
                    || r.metaData.None? || !MayReinstall(old(h.state.files))
  {
    ghost var before := h.state.files;
    PairNamesAre();
    hide CanCommit, InstalledUpTo, StagedFiles, Reinstalled, Safe, PairNames, SameBut, MayReinstall, NetworkOf;
    ok := StageReinstall(h, r);
    ghost var prepared := h.state.files;
    StagedAreInPairs(before, prepared);
    if !ok {
      return;
    }
    PreparedCanCommit(before, r);
    ok := CommitReinstall(h);
    SameButBoth(before, prepared, h.state.files, PairNames(4), PairNames(4), PairNames(4));
    if ok {
      CommittedIsReinstalled(before, h.state.files, r);
    }
  }

  lemma StagedAreInPairs(before: Files, now: Files)
    requires SameBut(before, now, STAGED_NAMES)
    ensures SameBut(before, now, PairNames(4))
  {
    PairNamesAre();
    hide PairNames;
  }

  /** `reinstall_vm` from a domain that is shut off on: install the new files, start, and wait. */
  method InstallAndStart(h: Host, r: ReinstallRequest) returns (ok: bool)
    requires h.Valid() && h.state.domain == ShutOff && h.state.dir
    requires HasMetadata(h.state.files) && NoneStaged(h.state.files)
    requires UserData in h.state.files ==> h.state.files[UserData].Regular?
    requires MetaData in h.state.files ==> h.state.files[MetaData].Regular?
    modifies h
    ensures h.Goes() && (h.sent == old(h.sent) || h.sent == old(h.sent) + [StartDomain])
    ensures h.state == old(h.state).(files := h.state.files, domain := h.state.domain) && h.state.domain != Absent
    ensures SameBut(old(h.state.files), h.state.files, PairNames(4))
    ensures ok ==> h.sent == old(h.sent) + [StartDomain] && h.state.domain == Running
    ensures ok ==> r.metaData.Some? && h.state.files == Reinstalled(old(h.state.files), r)
    ensures h.fileErrors == old(h.fileErrors) ==>
              || h.state.files == old(h.state.files)
              || (r.metaData.Some? && h.state.files == Reinstalled(old(h.state.files), r))
    ensures NothingFailed(old(h.failures), old(h.fileErrors), h) && r.metaData.Some?
            && MayReinstall(old(h.state.files)) ==>
              && h.sent == old(h.sent) + [StartDomain]
              && h.state.files == Reinstalled(old(h.state.files), r)
              && LiveWith(h.past, |old(h.past)|, h.state.files)
              && (ok || h.state.domain != Running)
  {
    hide Reinstalled, PairNames, LiveWith;
    ok := StageAndCommit(h, r);
    if !ok {
      return;
    }
    ReinstalledHasMetadata(old(h.state.files), r);
    ghost var installed := |h.past|;
    ok := h.Start();
    if !ok {
      return;
    }
    ghost var started := h.past;
    ok := WaitFor(h, Running);
    LiveWithStays(started, h.past, installed, |old(h.past)|, h.state.files);
  }

  /**
   `reinstall_vm`: unless a file operation fails, the directory is afterwards what it was or what it should
   become; names other than the live files and their staged versions never change.
   */
  method ReinstallVm(h: Host, accepted: bool, r: ReinstallRequest) returns (ok: bool)
    requires h.Valid()
    modifies h
    ensures h.Goes()
    ensures UpTo(old(h.sent), h.sent, [DestroyDomain, StartDomain])
    ensures h.sent != old(h.sent) || h.state.files != old(h.state.files) ==> h.checks > old(h.checks)
    ensures ok ==> h.sent == old(h.sent) + [DestroyDomain, StartDomain]
    ensures ok ==> HasMetadata(old(h.state.files)) && r.metaData.Some?
    ensures ok ==> h.state == old(h.state).(files := Reinstalled(old(h.state.files), r), domain := Running)
    ensures h.fileErrors == old(h.fileErrors) ==>
              || h.state.files == old(h.state.files)
              || (r.metaData.Some? && h.state.files == Reinstalled(old(h.state.files), r))
    ensures SameBut(old(h.state.files), h.state.files, PairNames(4))
    ensures !HasMetadata(old(h.state.files)) || old(h.state.domain) == Absent ==> !ok && h.state == old(h.state)
    ensures !NoneStaged(old(h.state.files)) || !accepted ==> !ok && h.state == old(h.state)
    ensures old(h.state.domain) == Absent <==> h.state.domain == Absent
    ensures NothingFailed(old(h.failures), old(h.fileErrors), h) && accepted && r.metaData.Some?
            && MayReinstall(old(h.state.files)) && old(h.state.domain) != Absent ==>
              && h.sent == old(h.sent) + [DestroyDomain, StartDomain]
              && h.state.files == Reinstalled(old(h.state.files), r)
              && LiveWith(h.past, |old(h.past)|, h.state.files)
              && (ok || h.state.domain != Running)
  {
    hide Reinstalled, PairNames, LiveWith, HasMetadata;
    ok := CheckReinstall(h, accepted);
    if !ok {
      return;
    }
    var _ := h.Destroy();
    ok := EnsureStopped(h);
    if !ok {
      return;
    }
    ghost var stopped := |h.past|;
    ok := InstallAndStart(h, r);
    if LiveWith(h.past, stopped, h.state.files) {
      LiveWithStays(h.past, h.past, stopped, |old(h.past)|, h.state.files);
    }
  }

  lemma ReinstalledHasMetadata(files: Files, r: ReinstallRequest)
    requires HasMetadata(files) && r.metaData.Some?
    ensures HasMetadata(Reinstalled(files, r)) && Reinstalled(files, r).Keys == files.Keys + {UserData, MetaData}
  {
  }

  // ----- Runs -----

  /** A staged file is a foreign entry to a delete. */
  lemma StagedIsForeign(files: Files)
    requires !NoneStaged(files)
    ensures !OnlyManaged(files)
  {
  }

  datatype Operation =
    | Create(accepted: bool, create: CreateRequest)
    | Reinstall(accepted: bool, reinstall: ReinstallRequest)
    | Delete
    | PowerCommand(command: Power)

  /**
   Any operations one after the other, from any safe state: every state the host passes through is safe, so
   an agent that dies at any moment leaves a state its next run may start from.
   Two kinds of directory no operation ever gets past: with managed files, and either no domain or a stale staged
   file, every create, reinstall and delete refuses.
   */
  method Run(h: Host, operations: seq<Operation>)
    requires h.Valid()
    modifies h
    ensures h.Goes()
    ensures forall s | s in h.past :: Live(s.domain) ==> HasMetadata(s.files)
    ensures forall s | s in h.past ::
              s.domain != Absent ==> DomainXml in s.files && s.files[DomainXml] == Regular(Describes)
    ensures !NoManaged(old(h.state.files)) && old(h.state.domain) == Absent ==> h.state == old(h.state)
    ensures !NoManaged(old(h.state.files)) && !NoneStaged(old(h.state.files)) ==>
              h.state == old(h.state).(domain := h.state.domain)
  {
    ghost var before := h.state;
    if !NoneStaged(before.files) {
      StagedIsForeign(before.files);
    }
    hide NoManaged, NoneStaged, OnlyManaged, HasMetadata;
    for i := 0 to |operations|
      invariant h.Goes()
      invariant !NoManaged(before.files) && before.domain == Absent ==> h.state == before
      invariant !NoManaged(before.files) && !NoneStaged(before.files) ==> h.state == before.(domain := h.state.domain)
    {
      match operations[i]
      case Create(accepted, request) =>
        var _ := CreateVm(h, accepted, request);
      case Reinstall(accepted, request) =>
        var _ := ReinstallVm(h, accepted, request);
      case Delete =>
        var _ := DeleteVm(h);
      case PowerCommand(command) =>
        var _ := VirshVmCommand(h, command);
    }
  }
}
