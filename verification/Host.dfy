/**
 One VM as its host sees it: the files in its directory and the state of its libvirt domain, and the
 primitive steps an agent has for changing them. Any host command may fail, with or without having taken
 effect, and any file operation may fail.
 */
module Host {
  import opened Wrappers

  datatype Domain = Absent | ShutOff | Running | Other

  /** The entries of a VM directory: the managed ones, the staged ones of a reinstall, and anything else. */
  datatype FileName =
    | Disk | Seed | NetworkConfig | DomainXml | UserData | MetaData
    | StagedDisk | StagedSeed | StagedUserData | StagedMetaData
    | Foreign(name: string)

  const MANAGED := [Disk, Seed, NetworkConfig, DomainXml, UserData, MetaData]

  const MANAGED_NAMES := {Disk, Seed, NetworkConfig, DomainXml, UserData, MetaData}

  /** What a file holds; `Describes`: domain metadata of this VM; `Partial`: left by a failed step. */
  datatype Content =
    | Overlay(image: string, gb: nat)
    | Text(text: string)
    | SeedOf(userData: Content, metaData: Content, network: Option<Content>)
    | Describes
    | Partial(what: nat)

  /** `Irregular`: a symbolic link, a directory or another special file. */
  datatype Entry = Regular(content: Content) | Irregular

  type Files = map<FileName, Entry>

  datatype State = State(files: Files, dir: bool, domain: Domain)

  predicate Live(d: Domain) { d == Running || d == Other }

  predicate IsRegular(files: Files, name: FileName) { name in files && files[name].Regular? }

  /** Two directories differ at most in some names. */
  ghost predicate SameBut(a: Files, b: Files, names: set<FileName>) {
    forall n | n !in names :: (n in a <==> n in b) && (n in a ==> n in b && a[n] == b[n])
  }

  /** What `ensure_vm_domain_metadata` asks for. */
  predicate HasMetadata(files: Files) {
    IsRegular(files, Disk) && IsRegular(files, Seed) && Described(files)
  }

  predicate Described(files: Files) { DomainXml in files && files[DomainXml] == Regular(Describes) }

  /**
   What must hold at every moment: a live domain has its disk, its seed and its metadata; a defined domain
   has its metadata; and there are files only in a directory.
   */
  predicate Safe(s: State) {
    && (Live(s.domain) ==> HasMetadata(s.files))
    && (s.domain != Absent ==> Described(s.files))
    && (s.files != map[] ==> s.dir)
  }

  /** Writing a file keeps a state safe, unless it is the metadata of a defined domain. */
  lemma WritingIsSafe(s: State, name: FileName, content: Content)
    requires Safe(s) && s.dir && (name == DomainXml ==> s.domain == Absent)
    ensures Safe(s.(files := s.files[name := Regular(content)]))
  {
  }

  /** What the domain may do by itself: a live one may change, crash or stop. It is never started by others. */
  predicate MayDrift(from: Domain, to: Domain) {
    from == to || (Live(from) && to != Absent)
  }

  /** What `virsh` is told to do to the domain; a look at its state is not counted. */
  datatype Command =
    | DefineDomain | UndefineDomain | StartDomain | DestroyDomain | ShutdownDomain | RebootDomain

  /** From some moment on, the domain was live over these files at least once. */
  ghost predicate LiveWith(past: seq<State>, from: nat, files: Files) {
    exists i | from <= i < |past| :: Live(past[i].domain) && past[i].files == files
  }

  /** What was once seen stays in the past. */
  lemma LiveWithStays(past: seq<State>, later: seq<State>, from: nat, since: nat, files: Files)
    requires LiveWith(past, from, files) && past <= later && since <= from
    ensures LiveWith(later, since, files)
  {
    var i :| from <= i < |past| && Live(past[i].domain) && past[i].files == files;
    assert later[i] == past[i];
  }

  datatype Reading = Seen(domain: Domain) | NotFound | Unreadable

  /** What a look at a managed file answers; `Rejected`: not a regular file, or the look failed. */
  datatype Look = Missing | Present | Rejected

  /** The host. `past` holds every state it has been in, in order, the present one last. */
  class Host {
    var state: State
    ghost var past: seq<State>
    /** How many commands and writes failed, how many other file operations, and what `virsh` was told. */
    ghost var failures: nat
    ghost var fileErrors: nat
    ghost var sent: seq<Command>
    /** How many checks outside the directory went well. */
    ghost var checks: nat

    ghost predicate Valid()
      reads this
    {
      past != [] && past[|past| - 1] == state && Safe(state) && forall s | s in past :: Safe(s)
    }

    /** What every step and every operation keeps. */
    twostate predicate Goes()
      reads this
    {
      && Valid()
      && old(past) <= past
      && old(failures) <= failures
      && old(fileErrors) <= fileErrors
      && old(sent) <= sent
      && old(checks) <= checks
    }

    constructor (s: State)
      requires Safe(s)
      ensures Valid() && state == s
    {
      state, past, failures, fileErrors, sent, checks := s, [s], 0, 0, [], 0;
    }

    /** The only way the state changes. */
    method Become(next: State)
      requires Valid() && Safe(next)
      modifies this
      ensures Goes() && state == next && past == old(past) + [next]
      ensures failures == old(failures) && fileErrors == old(fileErrors) && sent == old(sent)
    {
      state, past := next, past + [next];
    }

    /** A command or a write reports failure. */
    ghost method Fail()
      requires Valid()
      modifies this`failures
      ensures Goes() && failures == old(failures) + 1
    {
      failures := failures + 1;
    }

    // ----- virsh -----

    method Drift()
      requires Valid()
      modifies this
      ensures Goes() && failures == old(failures) && fileErrors == old(fileErrors) && sent == old(sent)
      ensures state == old(state).(domain := state.domain) && MayDrift(old(state.domain), state.domain)
    {
      var to: Domain := *;
      if MayDrift(state.domain, to) {
        Become(state.(domain := to));
      }
    }

    /** `virsh domstate`: truthful when it answers. */
    method Domstate() returns (r: Reading)
      requires Valid()
      modifies this
      ensures Goes() && fileErrors == old(fileErrors) && sent == old(sent)
      ensures state == old(state).(domain := state.domain) && MayDrift(old(state.domain), state.domain)
      ensures r.Seen? ==> state.domain == r.domain != Absent
      ensures r.NotFound? ==> state.domain == Absent
      ensures r.Unreadable? ==> failures > old(failures)
    {
      Drift();
      var fails: bool := *;
      if fails {
        Fail();
      }
      r := if fails then Unreadable else if state.domain == Absent then NotFound else Seen(state.domain);
    }

    /** `virsh define` on the VM's domain.xml. */
    method Define() returns (ok: bool)
      requires Valid()
      modifies this
      ensures Goes() && fileErrors == old(fileErrors) && sent == old(sent) + [DefineDomain]
      ensures state == old(state).(domain := state.domain)
      ensures MayDrift(old(state.domain), state.domain) || (old(state.domain) == Absent && state.domain == ShutOff)
      ensures ok ==> state.domain != Absent
      ensures !ok ==> failures > old(failures) || !Described(state.files)
    {
      sent := sent + [DefineDomain];
      Drift();
      var takesEffect: bool := *;
      if takesEffect && Described(state.files) && state.domain == Absent {
        Become(state.(domain := ShutOff));
      }
      ok := *;
      ok := ok && Described(state.files) && state.domain != Absent;
      if !ok {
        Fail();
      }
    }

    /** `virsh undefine`, which must not meet a live domain. */
    method Undefine() returns (ok: bool)
      requires Valid() && !Live(state.domain)
      modifies this
      ensures Goes() && fileErrors == old(fileErrors) && sent == old(sent) + [UndefineDomain]
      ensures state == old(state).(domain := state.domain)
      ensures state.domain == old(state.domain) || state.domain == Absent
      ensures ok ==> old(state.domain) != Absent && state.domain == Absent
      ensures !ok ==> failures > old(failures) || old(state.domain) == Absent
    {
      sent := sent + [UndefineDomain];
      var takesEffect: bool := *;
      var defined := state.domain != Absent;
      if takesEffect {
        Become(state.(domain := Absent));
      }
      ok := *;
      ok := ok && defined && takesEffect;
      if !ok {
        Fail();
      }
    }

    /** `virsh start`, which must find the files of the domain it starts; success means that the domain was live. */
    method Start() returns (ok: bool)
      requires Valid() && (state.domain == ShutOff ==> HasMetadata(state.files))
      modifies this
      ensures Goes() && fileErrors == old(fileErrors) && sent == old(sent) + [StartDomain]
      ensures state == old(state).(domain := state.domain)
      ensures old(state.domain) == Absent <==> state.domain == Absent
      ensures ok ==> Live(old(state.domain)) || LiveWith(past, |old(past)|, state.files)
      ensures old(state.domain) == ShutOff && Live(state.domain) ==> LiveWith(past, |old(past)|, state.files)
      ensures !ok ==> failures > old(failures)
    {
      sent := sent + [StartDomain];
      var wasLive := Live(state.domain);
      var takesEffect: bool := *;
      if takesEffect && state.domain == ShutOff {
        var to: Domain := *;
        Become(state.(domain := if to == Running then Running else Other));
        wasLive := true;
        assert LiveWith(past, |old(past)|, state.files);
      }
      ghost var started := past;
      Drift();
      if LiveWith(started, |old(past)|, state.files) {
        LiveWithStays(started, past, |old(past)|, |old(past)|, state.files);
      }
      ok := *;
      ok := ok && wasLive;
      if !ok {
        Fail();
      }
    }

    /** `virsh destroy`: success means that the domain is shut off; without a live domain it cannot succeed. */
    method Destroy() returns (ok: bool)
      requires Valid()
      modifies this
      ensures Goes() && fileErrors == old(fileErrors) && sent == old(sent) + [DestroyDomain]
      ensures state == old(state).(domain := state.domain) && MayDrift(old(state.domain), state.domain)
      ensures ok ==> state.domain == ShutOff
      ensures failures == old(failures) ==> !Live(state.domain)
    {
      sent := sent + [DestroyDomain];
      Drift();
      var wasLive := Live(state.domain);
      var takesEffect: bool := *;
      if takesEffect && wasLive {
        Become(state.(domain := ShutOff));
      }
      ok := *;
      ok := ok && wasLive && takesEffect;
      if wasLive && !ok {
        Fail();
      }
    }

    /** `virsh shutdown` and `virsh reboot` ask the guest: whatever comes of it, a live domain may do by itself. */
    method Signal(command: Command) returns (ok: bool)
      requires Valid()
      modifies this
      ensures Goes() && fileErrors == old(fileErrors) && sent == old(sent) + [command]
      ensures state == old(state).(domain := state.domain) && MayDrift(old(state.domain), state.domain)
      ensures ok ==> state.domain != Absent
      ensures !ok ==> failures > old(failures) || state.domain == Absent
    {
      sent := sent + [command];
      Drift();
      ok := *;
      ok := ok && state.domain != Absent;
      if !ok {
        Fail();
      }
    }

    // ----- Other host commands -----

    /** A command that only reads: preflight checks, `qemu-img info`, path checks outside the VM directory. */
    method Inspect() returns (ok: bool)
      requires Valid()
      modifies this`failures, this`checks
      ensures Goes() && (if ok then checks == old(checks) + 1 else failures > old(failures))
    {
      ok := *;
      if ok {
        checks := checks + 1;
      } else {
        Fail();
      }
    }

    /** `qemu-img create`. */
    method CreateOverlay(name: FileName, image: string, gb: nat) returns (ok: bool)
      requires Valid() && state.dir && name != DomainXml
      modifies this
      ensures Goes() && fileErrors == old(fileErrors) && sent == old(sent)
      ensures state == old(state).(files := state.files)
      ensures state.files == old(state.files) || IsRegular(state.files, name)
      ensures SameBut(old(state.files), state.files, {name})
      ensures ok ==> name in state.files && state.files[name] == Regular(Overlay(image, gb))
      ensures !ok ==> failures > old(failures)
    {
      ok := Produce(name, Overlay(image, gb));
    }

    method Put(name: FileName, content: Content)
      requires Valid() && state.dir && (name == DomainXml ==> state.domain == Absent)
      modifies this
      ensures Goes() && failures == old(failures) && fileErrors == old(fileErrors) && sent == old(sent)
      ensures state == old(state).(files := old(state.files)[name := Regular(content)])
    {
      WritingIsSafe(state, name, content);
      Become(state.(files := state.files[name := Regular(content)]));
    }

    /** A step that is not finished may leave a part of its file behind. */
    method LeavePart(name: FileName)
      requires Valid() && state.dir && (name == DomainXml ==> state.domain == Absent)
      modifies this
      ensures Goes() && failures == old(failures) && fileErrors == old(fileErrors) && sent == old(sent)
      ensures state == old(state).(files := state.files)
      ensures state.files == old(state.files) || IsRegular(state.files, name)
      ensures SameBut(old(state.files), state.files, {name})
    {
      var leavesPart: bool := *;
      if leavesPart {
        var what: nat := *;
        Put(name, Partial(what));
      }
    }

    /** A program writing one file: it may leave a part of it behind, and fail even after writing all of it. */
    method Produce(name: FileName, content: Content) returns (ok: bool)
      requires Valid() && state.dir && name != DomainXml
      modifies this
      ensures Goes() && fileErrors == old(fileErrors) && sent == old(sent)
      ensures state == old(state).(files := state.files)
      ensures state.files == old(state.files) || IsRegular(state.files, name)
      ensures SameBut(old(state.files), state.files, {name})
      ensures ok ==> name in state.files && state.files[name] == Regular(content)
      ensures !ok ==> failures > old(failures)
    {
      hide Safe;
      LeavePart(name);
      var finishes: bool := *;
      if finishes {
        Put(name, content);
      }
      ok := *;
      ok := ok && finishes;
      if !ok {
        Fail();
      }
    }

    // ----- Files -----

    /** `symlink_metadata` and the checks on it. */
    method LookAt(name: FileName) returns (r: Look)
      requires Valid()
      modifies this`fileErrors
      ensures Goes() && (fileErrors == old(fileErrors) || r == Rejected)
      ensures r == Missing ==> name !in state.files
      ensures r == Present ==> IsRegular(state.files, name)
      ensures r == Rejected && fileErrors == old(fileErrors) ==> name in state.files && state.files[name] == Irregular
    {
      var fails: bool := *;
      if fails {
        fileErrors := fileErrors + 1;
        return Rejected;
      }
      r := if name !in state.files then Missing else if state.files[name].Regular? then Present else Rejected;
    }

    /** Reads a regular file. */
    method Read(name: FileName) returns (r: Option<Content>)
      requires Valid() && IsRegular(state.files, name)
      modifies this`fileErrors
      ensures Goes() && (r.Some? ==> Regular(r.value) == state.files[name] && fileErrors == old(fileErrors))
      ensures r.None? ==> fileErrors > old(fileErrors)
    {
      var fails: bool := *;
      if fails {
        fileErrors := fileErrors + 1;
        return None;
      }
      return Some(state.files[name].content);
    }

    /** `ensure_managed_vm_dir`. */
    method LookAtDir() returns (ok: bool)
      requires Valid()
      modifies this`fileErrors
      ensures Goes() && (ok ==> state.dir && fileErrors == old(fileErrors))
      ensures !ok ==> !state.dir || fileErrors > old(fileErrors)
    {
      ok := *;
      if ok {
        return state.dir;
      }
      fileErrors := fileErrors + 1;
    }

    /** `read_dir`. */
    method ListDir() returns (r: Option<set<FileName>>)
      requires Valid()
      modifies this`fileErrors
      ensures Goes() && (r.Some? ==> r.value == state.files.Keys && fileErrors == old(fileErrors))
      ensures r.None? ==> fileErrors > old(fileErrors)
    {
      var fails: bool := *;
      if fails {
        fileErrors := fileErrors + 1;
        return None;
      }
      return Some(state.files.Keys);
    }

    /** `write_new_managed_file`: refuses to overwrite; a failing write may leave a part of the file. */
    method WriteNew(name: FileName, content: Content) returns (ok: bool)
      requires Valid() && state.dir
      modifies this
      ensures Goes() && fileErrors == old(fileErrors) && sent == old(sent)
      ensures state == old(state).(files := state.files)
      ensures state.files == old(state.files) || (name !in old(state.files) && IsRegular(state.files, name))
      ensures SameBut(old(state.files), state.files, {name})
      ensures ok ==> name !in old(state.files) && name in state.files && state.files[name] == Regular(content)
      ensures !ok ==> failures > old(failures) || name in old(state.files)
    {
      ok := *;
      if name in state.files {
        return false;
      }
      LeavePart(name);
      if ok {
        Put(name, content);
      } else {
        Fail();
      }
    }

    method RemoveFile(name: FileName) returns (ok: bool)
      requires Valid() && IsRegular(state.files, name)
      requires Safe(state.(files := state.files - {name}))
      modifies this
      ensures Goes() && sent == old(sent) && (fileErrors == old(fileErrors) || !ok)
      ensures if ok then state == old(state).(files := old(state.files) - {name})
              else state == old(state) && fileErrors > old(fileErrors)
    {
      ok := *;
      if ok {
        Become(state.(files := state.files - {name}));
      } else {
        fileErrors := fileErrors + 1;
      }
    }

    method Rename(source: FileName, target: FileName) returns (ok: bool)
      requires Valid() && IsRegular(state.files, source) && target !in state.files
      requires Safe(state.(files := state.files[target := state.files[source]] - {source}))
      modifies this
      ensures Goes() && sent == old(sent) && (fileErrors == old(fileErrors) || !ok)
      ensures if ok then state == old(state).(files := old(state.files)[target := old(state.files)[source]] - {source})
              else state == old(state) && fileErrors > old(fileErrors)
    {
      ok := *;
      if ok {
        Become(state.(files := state.files[target := state.files[source]] - {source}));
      } else {
        fileErrors := fileErrors + 1;
      }
    }

    /** `prepare_vm_dir_for_create`. */
    method CreateDir() returns (ok: bool)
      requires Valid()
      modifies this
      ensures Goes() && sent == old(sent) && fileErrors == old(fileErrors)
      ensures state == old(state).(dir := state.dir) && (old(state.dir) ==> state.dir)
      ensures ok ==> state.dir
      ensures !ok ==> failures > old(failures)
    {
      var creates: bool := *;
      if creates && !state.dir {
        Become(state.(dir := true));
      }
      ok := *;
      ok := ok && state.dir;
      if !ok {
        Fail();
      }
    }

    /** `remove_dir`: only an empty directory goes. */
    method RemoveDir() returns (ok: bool)
      requires Valid() && state.dir
      modifies this
      ensures Goes() && sent == old(sent) && (fileErrors == old(fileErrors) || !ok)
      ensures if ok then state == old(state).(dir := false) else state == old(state)
      ensures ok ==> state.files == map[]
      ensures !ok ==> state.files != map[] || fileErrors > old(fileErrors)
    {
      var fails: bool := *;
      if fails {
        fileErrors := fileErrors + 1;
        return false;
      }
      ok := state.files == map[];
      if ok {
        Become(state.(dir := false));
      }
    }
  }
}
