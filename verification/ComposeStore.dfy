/** The lock table and the project directories of skiff/routers/compose.py, one `compose_up`
    at a time; module ComposeProtocol interleaves many.  The validator is a predicate on
    contents, and every removal works. */
module ComposeStore {
  import opened Text
  import opened ComposeProtocol

  datatype Refusal = CreateFailed | Rejected | FileMissing | WriteFailed | DeployFailed

  class Store {
    var locks: map<Project, Lock>
    var made: nat
    var disk: Disk

    ghost predicate Valid()
      reads this
    {
      LocksInv(Locks(locks, made, map[]))
    }

    constructor (disk: Disk)
      ensures Valid() && this.disk == disk && locks == map[]
    {
      locks, made := map[], 0;
      this.disk := disk;
    }

    // `_lock_for_project`
    method LockForProject(name: Project) returns (lock: Lock)
      requires Valid()
      modifies this`locks, this`made
      ensures Valid()
      ensures name in locks && locks[name] == lock
      ensures forall p :: p in old(locks) ==> p in locks && locks[p] == old(locks)[p]
      ensures forall p :: p in locks ==> p in old(locks) || p == name
      ensures forall p :: p in locks && locks[p] == lock ==> p == name
    {
      if name !in locks {
        locks := locks[name := made];
        made := made + 1;
      }
      lock := locks[name];
    }

    // `_resolve_project_dir`; `creates` says whether a missing directory can be made.
    method ResolveProjectDir(name: Project, creates: bool) returns (r: Result<Dir, Refusal>)
      modifies this`disk
      ensures name in old(disk) ==> r == Ok(old(disk)[name]) && disk == old(disk)
      ensures name !in old(disk) && creates ==> r == Ok(Dir(None, false)) && disk == old(disk)[name := Dir(None, false)]
      ensures name !in old(disk) && !creates ==> r == Err(CreateFailed) && disk == old(disk)
    {
      if name !in disk {
        if !creates {
          return Err(CreateFailed);
        }
        disk := disk[name := Dir(None, false)];
      }
      r := Ok(disk[name]);
    }

    // `_prepare_compose_file`; `writes` says whether the file can be written.
    method PrepareComposeFile(name: Project, upload: Option<Content>, accepts: Content -> bool, writes: bool)
      returns (r: Result<Content, Refusal>)
      requires name in disk
      modifies this`disk
      ensures r.Ok? ==>
                && accepts(r.value)
                && disk == old(disk)[name := Dir(Some(r.value), old(disk)[name].others)]
                && Some(r.value) == if upload.Some? then upload else old(disk)[name].file
      ensures r.Err? <==>
                || (upload.Some? && !(accepts(upload.value) && writes))
                || (upload.None? && !(old(disk)[name].file.Some? && accepts(old(disk)[name].file.value)))
      ensures r.Err? ==>
                disk == if r.error.FileMissing? && !old(disk)[name].others then old(disk) - {name} else old(disk)
      ensures r.Err? ==>
                r.error == if upload.Some? then (if accepts(upload.value) then WriteFailed else Rejected)
                           else if old(disk)[name].file.None? then FileMissing else Rejected
    {
      var dir := disk[name];
      if upload.Some? {
        if !accepts(upload.value) {
          return Err(Rejected);
        }
        if !writes {
          return Err(WriteFailed);
        }
        disk := disk[name := dir.(file := upload)];
        return Ok(upload.value);
      }
      if dir.file.None? {
        if !dir.others {
          disk := disk - {name};
        }
        return Err(FileMissing);
      }
      if !accepts(dir.file.value) {
        return Err(Rejected);
      }
      assert disk == disk[name := dir];
      return Ok(dir.file.value);
    }

    // The body of `compose_up` under the lock; `runs` says whether `docker compose` does.
    method ComposeUp(name: Project, upload: Option<Content>, accepts: Content -> bool,
                     creates: bool, writes: bool, runs: bool)
      returns (r: Result<Content, Refusal>)
      modifies this`disk
      // Success needs a directory, an accepted file and a successful deployment, and stores
      // the file that was deployed.
      ensures r.Ok? <==>
                && (name in old(disk) || creates) && runs
                && (if upload.Some? then accepts(upload.value) && writes
                    else name in old(disk) && old(disk)[name].file.Some? && accepts(old(disk)[name].file.value))
      ensures r.Ok? ==> name in disk && disk[name].file == Some(r.value) && accepts(r.value)
      // A failure undoes the creation of the directory ...
      ensures r.Err? && name !in old(disk) ==> disk == old(disk)
      // ... and of a directory that was there it replaces the file exactly when the upload was
      // accepted and written and only the deployment failed, and removes it exactly when it
      // was empty and there was no upload.
      ensures r.Err? && name in old(disk) ==>
                disk == if upload.Some? && r.error.DeployFailed?
                        then old(disk)[name := old(disk)[name].(file := upload)]
                        else if upload.None? && old(disk)[name] == Dir(None, false) then old(disk) - {name}
                        else old(disk)
      ensures r.Err? ==>
                r.error == if name !in old(disk) && !creates then CreateFailed
                           else if upload.Some? then
                             if !accepts(upload.value) then Rejected
                             else if !writes then WriteFailed else DeployFailed
                           else if name !in old(disk) || old(disk)[name].file.None? then FileMissing
                           else if accepts(old(disk)[name].file.value) then DeployFailed else Rejected
      ensures forall p :: p != name ==> (p in disk <==> p in old(disk)) && (p in disk ==> disk[p] == old(disk)[p])
    {
      var wasCreated := name !in disk;
      var dir := ResolveProjectDir(name, creates);
      if dir.Err? {
        return Err(dir.error);
      }
      r := PrepareComposeFile(name, upload, accepts, writes);
      assert !wasCreated && upload.None? && r.Ok? ==> disk == old(disk);
      if r.Ok? && !runs {
        r := Err(DeployFailed);
      }
      if r.Err? && wasCreated {
        disk := disk - {name};
        assert disk == old(disk);
      }
    }
  }
}
