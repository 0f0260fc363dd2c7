/** `compose_up` of skiff/routers/compose.py as a transition system: any number of requests
    for any projects, interleaved freely.  A project is its sanitised name.

    What a validator, the disk or `docker compose` answers is part of the action, so a file
    may be valid at one time and not at another.  A write happens as a whole or not at all.
    `compose_down` does not take the project lock; its last effect is an action of its own. */
module ComposeProtocol {
  import opened Text

  type Request = nat
  type Lock = nat
  type Project = string
  type Content = string

  // `docker-compose.yml`, if there, and whether there is anything else.
  datatype Dir = Dir(file: Option<Content>, others: bool)

  type Disk = map<Project, Dir>

  datatype Pc =
    | Arrived     // the name is accepted
    | Waiting     // has the lock object
    | Entered     // holds the lock
    | Resolving   // looked for the directory
    | Preparing   // the directory is there
    | Writing     // the upload was accepted
    | Ready       // about to shell out
    | CleaningUp
    | Leaving     // about to release the lock
    | Gone

  // History: how many directories of the project downs had removed when the request looked
  // for its directory, when it last looked or wrote, when it ran, when its removal failed.
  datatype Marks = Marks(found: nat, file: nat, run: nat, cleanUp: nat)

  // `found` is the directory as first looked up, so `was_created` is `found.None?`.
  // History: `checked` is the content the validator accepted in this request, `wrote` whether
  // it was then written, `ran` the file that `docker compose` was given, `swept` that the
  // final removal, if there was one, worked.
  datatype Up = Up(
    project: Project, upload: Option<Content>, pc: Pc, lock: Lock, found: Option<Dir>,
    checked: Option<Content>, wrote: bool, ran: Option<Option<Content>>,
    failed: bool, swept: bool, marks: Marks)

  // The lock table, the number of locks made, and who holds which.
  datatype Locks = Locks(table: map<Project, Lock>, made: nat, held: map<Lock, Request>)

  // `removals` counts what downs have removed, a history.
  datatype State = State(
    start: Disk, locks: Locks, disk: Disk, removals: map<Project, nat>,
    accepted: set<Content>, ups: map<Request, Up>)

  datatype Action =
    | Arrive(t: Request, project: Project, upload: Option<Content>)
    | GetLock(t: Request)
    | Acquire(t: Request)
    | Find(t: Request)
    | Resolve(t: Request, ok: bool)
    | CheckUpload(t: Request, ok: bool)
    | Write(t: Request, ok: bool)
    | MissFile(t: Request)
    | CheckStored(t: Request, ok: bool)
    | Run(t: Request, ok: bool)
    | CleanUp(t: Request, ok: bool, leftover: Dir)
    | Release(t: Request)
    | DownRemoves(project: Project)

  predicate InPc(s: State, t: Request, pc: Pc) { t in s.ups && s.ups[t].pc == pc }

  function Lookup(s: State, p: Project): Option<Dir> { if p in s.disk then Some(s.disk[p]) else None }

  function Stored(s: State, p: Project): Option<Content> { if p in s.disk then s.disk[p].file else None }

  function Removals(s: State, p: Project): nat { if p in s.removals then s.removals[p] else 0 }

  predicate Enabled(s: State, a: Action) {
    match a
    case Arrive(t, _, _) => t !in s.ups
    case GetLock(t) => InPc(s, t, Arrived)
    case Acquire(t) => InPc(s, t, Waiting) && s.ups[t].lock !in s.locks.held
    case Find(t) => InPc(s, t, Entered)
    case Resolve(t, _) => InPc(s, t, Resolving)
    case CheckUpload(t, _) => InPc(s, t, Preparing) && s.ups[t].upload.Some?
    case Write(t, ok) => InPc(s, t, Writing) && (ok ==> s.ups[t].project in s.disk)
    case MissFile(t) => InPc(s, t, Preparing) && s.ups[t].upload.None? && Stored(s, s.ups[t].project).None?
    case CheckStored(t, _) => InPc(s, t, Preparing) && s.ups[t].upload.None? && Stored(s, s.ups[t].project).Some?
    case Run(t, _) => InPc(s, t, Ready)
    // What a failed removal leaves is part of what was there.
    case CleanUp(t, ok, leftover) => InPc(s, t, CleaningUp)
      && (!ok && s.ups[t].project in s.disk ==>
            && leftover.file in {None, s.disk[s.ups[t].project].file}
            && (leftover.others ==> s.disk[s.ups[t].project].others))
    case Release(t) => InPc(s, t, Leaving)
    case DownRemoves(p) => p in s.disk
  }

  function NewUp(p: Project, upload: Option<Content>): Up {
    Up(p, upload, Arrived, 0, None, None, false, None, false, true, Marks(0, 0, 0, 0))
  }

  function Fail(u: Up, pc: Pc): Up { u.(pc := pc, failed := true) }

  // `_lock_for_project`
  function LockFor(l: Locks, p: Project): Lock { if p in l.table then l.table[p] else l.made }

  // Whether the final removal has something to remove.
  predicate RemovesDir(s: State, u: Up) { u.found.None? && u.project in s.disk }

  // The acting request after its step.
  function UpAfter(s: State, a: Action): Up
    requires Enabled(s, a) && !a.DownRemoves?
  {
    match a
    case Arrive(_, p, upload) => NewUp(p, upload)
    case GetLock(t) => s.ups[t].(pc := Waiting, lock := LockFor(s.locks, s.ups[t].project))
    case Acquire(t) => s.ups[t].(pc := Entered)
    case Find(t) =>
      var n := Removals(s, s.ups[t].project);
      s.ups[t].(pc := Resolving, found := Lookup(s, s.ups[t].project), marks := Marks(n, n, 0, 0))
    case Resolve(t, ok) => if ok then s.ups[t].(pc := Preparing) else Fail(s.ups[t], Leaving)
    case CheckUpload(t, ok) =>
      if ok then s.ups[t].(pc := Writing, checked := s.ups[t].upload) else Fail(s.ups[t], CleaningUp)
    case Write(t, ok) =>
      var u := s.ups[t];
      if ok then u.(pc := Ready, wrote := true, marks := u.marks.(file := Removals(s, u.project)))
      else Fail(u, CleaningUp)
    case MissFile(t) => Fail(s.ups[t], CleaningUp)
    case CheckStored(t, ok) =>
      if ok then s.ups[t].(pc := Ready, checked := Stored(s, s.ups[t].project)) else Fail(s.ups[t], CleaningUp)
    case Run(t, ok) =>
      var u := s.ups[t];
      var v := u.(ran := Some(Stored(s, u.project)), marks := u.marks.(run := Removals(s, u.project)));
      if ok then v.(pc := Leaving) else Fail(v, CleaningUp)
    case CleanUp(t, ok, _) =>
      var u := s.ups[t].(pc := Leaving);
      if RemovesDir(s, u) && !ok then u.(swept := false, marks := u.marks.(cleanUp := Removals(s, u.project)))
      else u
    case Release(t) => s.ups[t].(pc := Gone)
  }

  function DiskAfter(s: State, a: Action): Disk
    requires Enabled(s, a)
  {
    match a
    case Resolve(t, ok) =>
      if ok && s.ups[t].project !in s.disk then s.disk[s.ups[t].project := Dir(None, false)] else s.disk
    case Write(t, ok) =>
      var u := s.ups[t];
      if ok then s.disk[u.project := s.disk[u.project].(file := u.upload)] else s.disk
    case MissFile(t) =>  // removes the directory if it is empty
      var p := s.ups[t].project;
      if p in s.disk && !s.disk[p].others then s.disk - {p} else s.disk
    case CleanUp(t, ok, leftover) =>
      var u := s.ups[t];
      if !RemovesDir(s, u) then s.disk
      else if ok then s.disk - {u.project} else s.disk[u.project := leftover]
    case DownRemoves(p) => s.disk - {p}
    case _ => s.disk
  }

  function LocksAfter(s: State, a: Action): Locks
    requires Enabled(s, a)
  {
    var l := s.locks;
    match a
    case GetLock(t) =>
      var p := s.ups[t].project;
      if p in l.table then l else l.(table := l.table[p := l.made], made := l.made + 1)
    case Acquire(t) => l.(held := l.held[s.ups[t].lock := t])
    case Release(t) => l.(held := l.held - {s.ups[t].lock})
    case _ => l
  }

  function AcceptedAfter(s: State, a: Action): set<Content>
    requires Enabled(s, a)
  {
    match a
    case CheckUpload(t, ok) => if ok then s.accepted + {s.ups[t].upload.value} else s.accepted
    case CheckStored(t, ok) => if ok then s.accepted + {Stored(s, s.ups[t].project).value} else s.accepted
    case _ => s.accepted
  }

  function Apply(s: State, a: Action): State
    requires Enabled(s, a)
  {
    State(s.start, LocksAfter(s, a), DiskAfter(s, a),
          if a.DownRemoves? then s.removals[a.project := Removals(s, a.project) + 1] else s.removals,
          AcceptedAfter(s, a),
          if a.DownRemoves? then s.ups else s.ups[a.t := UpAfter(s, a)])
  }

  function Initial(disk: Disk): State {
    State(disk, Locks(map[], 0, map[]), disk, map[], {}, map[])
  }

  ghost predicate IsRun(states: seq<State>, actions: seq<Action>) {
    && |states| == |actions| + 1
    && states[0] == Initial(states[0].disk)
    && forall i {:trigger actions[i]} :: 0 <= i < |actions| ==>
         Enabled(states[i], actions[i]) && states[i + 1] == Apply(states[i], actions[i])
  }

  // ---------------------------------------------------------------- invariant

  // Between taking and releasing the lock.
  predicate Inside(u: Up) { !u.pc.Arrived? && !u.pc.Waiting? && !u.pc.Gone? }

  // One name, one lock.
  ghost predicate LocksInv(l: Locks) {
    && (forall p :: p in l.table ==> l.table[p] < l.made)
    && (forall p, q :: p in l.table && q in l.table && l.table[p] == l.table[q] ==> p == q)
  }

  predicate HoldsLock(l: Locks, t: Request, u: Up) {
    && (!u.pc.Arrived? ==> u.project in l.table && l.table[u.project] == u.lock)
    && (Inside(u) ==> u.lock in l.held && l.held[u.lock] == t)
  }

  // What a request has had accepted.
  predicate CheckedInv(accepted: set<Content>, u: Up) {
    && (u.checked.Some? ==> u.checked.value in accepted)
    && (u.upload.Some? && u.checked.Some? ==> u.checked == u.upload)
    && (u.pc in {Arrived, Waiting, Entered, Resolving, Preparing} ==> u.checked.None? && !u.failed)
    && (u.pc in {Writing, Ready} ==> u.checked.Some? && !u.failed)
    && (u.pc.Writing? ==> u.upload.Some?)
    && (u.pc.CleaningUp? ==> u.failed)
    && (u.pc.Leaving? && !u.failed ==> u.checked.Some?)
    && (u.ran.Some? ==> u.checked.Some? && u.pc in {CleaningUp, Leaving, Gone})
    && (u.pc.Leaving? && !u.failed ==> u.ran.Some?)
    && (!u.swept ==> u.failed && u.pc in {Leaving, Gone})
    && (u.wrote ==> u.upload.Some? && u.checked == u.upload && u.pc in {Ready, CleaningUp, Leaving, Gone})
  }

  // A compose file found at the start is still there, or replaced by the accepted upload.
  predicate FileKept(now: Option<Dir>, u: Up) {
    u.found.Some? && u.found.value.file.Some? ==>
      && now.Some? && now.value.others == u.found.value.others
      && (now == u.found || (u.upload.Some? && u.checked == u.upload && now.value.file == u.upload))
  }

  predicate HasFile(now: Option<Dir>, file: Option<Content>) { now.Some? && file.Some? && now.value.file == file }

  predicate HasAnyFile(now: Option<Dir>) { now.Some? && now.value.file.Some? }

  // What a request that found a compose file and fails leaves, given that `n` directories
  // have been removed by now: a file exactly if none was since it last looked or wrote.
  predicate FileInv(now: Option<Dir>, n: nat, u: Up) {
    u.found.Some? && u.found.value.file.Some? ==>
      && (HasAnyFile(now) <==> n == u.marks.file)
      && (n == u.marks.found ==> FileKept(now, u))
      && (n == u.marks.file ==> if u.wrote then now.value.file == u.upload else now == u.found)
  }

  predicate MarksInv(n: nat, u: Up) {
    && u.marks.found <= u.marks.file <= n && u.marks.cleanUp <= n
    && (!u.wrote ==> u.marks.file == u.marks.found)
  }

  // The file that was run is the one that was accepted exactly if none was removed since.
  predicate RanInv(u: Up) {
    u.ran.Some? ==> (u.ran == Some(u.checked) <==> u.marks.run == u.marks.file)
  }

  // What a request inside the lock knows of its directory.
  predicate DirInv(now: Option<Dir>, n: nat, u: Up) {
    match u.pc
    case Resolving => now == if n == u.marks.found then u.found else None
    case Preparing => BeforeWrite(now, n, u)
    case Writing => BeforeWrite(now, n, u)
    case Ready =>
      && (n == u.marks.file ==> HasFile(now, u.checked))
      && (n != u.marks.file ==> now.None?)
      && FileInv(now, n, u)
    case CleaningUp => FileInv(now, n, u)
    case Leaving =>
      && FileInv(now, n, u)
      && (u.failed && u.found.None? ==> if u.swept then now.None? else (now.Some? <==> n == u.marks.cleanUp))
      && (!u.failed ==> if n == u.marks.file then HasFile(now, u.checked) else now.None?)
    case _ => true
  }

  predicate BeforeWrite(now: Option<Dir>, n: nat, u: Up) {
    if n == u.marks.found then now == if u.found.Some? then u.found else Some(Dir(None, false))
    else now.None? || now == Some(Dir(None, false))
  }

  predicate DiskInv(s: State, u: Up) {
    var n := Removals(s, u.project);
    MarksInv(n, u) && RanInv(u) && DirInv(Lookup(s, u.project), n, u)
  }

  predicate StoredInv(s: State, p: Project) {
    Stored(s, p).Some? ==>
      Stored(s, p).value in s.accepted || (p in s.start && s.start[p].file == Stored(s, p))
  }

  ghost predicate Inv(s: State) {
    && LocksInv(s.locks)
    && (forall t :: t in s.ups ==> HoldsLock(s.locks, t, s.ups[t]))
    && (forall t :: t in s.ups ==> CheckedInv(s.accepted, s.ups[t]))
    && (forall p :: StoredInv(s, p))
    && (forall t :: t in s.ups ==> DiskInv(s, s.ups[t]))
  }

  // ---------------------------------------------------------------- every step keeps it

  lemma LocksStep(s: State, a: Action)
    requires LocksInv(s.locks) && Enabled(s, a)
    ensures LocksInv(Apply(s, a).locks)
    ensures forall p :: p in s.locks.table ==>
              p in Apply(s, a).locks.table && Apply(s, a).locks.table[p] == s.locks.table[p]
  {
  }

  // A request keeps its own record while others act.
  lemma OthersKeepUp(s: State, a: Action, t: Request)
    requires Enabled(s, a) && t in s.ups && (a.DownRemoves? || a.t != t)
    ensures t in Apply(s, a).ups && Apply(s, a).ups[t] == s.ups[t]
    ensures s.accepted <= Apply(s, a).accepted
  {
  }

  predicate UsesLocks(a: Action) { a.GetLock? || a.Acquire? || a.Release? }

  lemma OtherStepsKeepLocks(s: State, a: Action)
    requires Enabled(s, a) && !UsesLocks(a)
    ensures Apply(s, a).locks == s.locks
  {
  }

  lemma OthersKeepLock(s: State, a: Action, t: Request)
    requires Inv(s) && Enabled(s, a) && t in s.ups && (a.DownRemoves? || a.t != t)
    ensures HoldsLock(Apply(s, a).locks, t, s.ups[t])
  {
    assert HoldsLock(s.locks, t, s.ups[t]);
    if UsesLocks(a) {
      LocksStep(s, a);
      assert HoldsLock(s.locks, a.t, s.ups[a.t]);
    } else {
      OtherStepsKeepLocks(s, a);
    }
  }

  lemma OwnLockUse(s: State, a: Action)
    requires Inv(s) && Enabled(s, a) && UsesLocks(a)
    ensures HoldsLock(LocksAfter(s, a), a.t, UpAfter(s, a))
  {
    assert HoldsLock(s.locks, a.t, s.ups[a.t]);
  }

  lemma OwnLockKept(s: State, a: Action)
    requires Inv(s) && Enabled(s, a) && !a.DownRemoves? && !UsesLocks(a)
    ensures HoldsLock(s.locks, a.t, UpAfter(s, a))
  {
    if a.t in s.ups { assert HoldsLock(s.locks, a.t, s.ups[a.t]); }
  }

  lemma OwnLockStep(s: State, a: Action)
    requires Inv(s) && Enabled(s, a) && !a.DownRemoves?
    ensures HoldsLock(Apply(s, a).locks, a.t, Apply(s, a).ups[a.t])
  {
    if UsesLocks(a) {
      OwnLockUse(s, a);
    } else {
      OwnLockKept(s, a);
      OtherStepsKeepLocks(s, a);
    }
  }

  predicate Ends(a: Action) { a.Run? || a.CleanUp? || a.Release? || a.MissFile? }

  lemma OwnCheckedStep(s: State, a: Action)
    requires Inv(s) && Enabled(s, a) && !a.DownRemoves? && !Ends(a)
    ensures CheckedInv(Apply(s, a).accepted, Apply(s, a).ups[a.t])
  {
    if a.t in s.ups { assert CheckedInv(s.accepted, s.ups[a.t]); }
  }

  lemma OwnLastChecked(s: State, a: Action)
    requires Inv(s) && Enabled(s, a) && Ends(a)
    ensures CheckedInv(Apply(s, a).accepted, Apply(s, a).ups[a.t])
  {
    assert CheckedInv(s.accepted, s.ups[a.t]);
  }

  lemma StoredStep(s: State, a: Action, p: Project)
    requires Inv(s) && Enabled(s, a)
    ensures StoredInv(Apply(s, a), p)
  {
    assert StoredInv(s, p);
    if a.Write? { assert CheckedInv(s.accepted, s.ups[a.t]); }
  }

  // Two requests for one project are never inside together.
  lemma Alone(s: State, t: Request, u: Request)
    requires Inv(s) && t in s.ups && u in s.ups && s.ups[t].project == s.ups[u].project
    requires Inside(s.ups[t]) && Inside(s.ups[u])
    ensures t == u
  {
    assert HoldsLock(s.locks, t, s.ups[t]) && HoldsLock(s.locks, u, s.ups[u]);
  }

  // The directory of a project changes only by a request for it inside the lock, or a down.
  lemma DirKept(s: State, a: Action, p: Project)
    requires Enabled(s, a) && a != DownRemoves(p)
    requires !a.DownRemoves? && a.t in s.ups && Inside(s.ups[a.t]) ==> s.ups[a.t].project != p
    ensures Lookup(Apply(s, a), p) == Lookup(s, p) && Removals(Apply(s, a), p) == Removals(s, p)
  {
  }

  lemma OwnFirstSteps(s: State, a: Action)
    requires Inv(s) && Enabled(s, a) && (a.Arrive? || UsesLocks(a) || a.Find? || a.Resolve?)
    ensures DiskInv(Apply(s, a), Apply(s, a).ups[a.t])
  {
    if a.t in s.ups {
      assert DiskInv(s, s.ups[a.t]) && CheckedInv(s.accepted, s.ups[a.t]);
    }
  }

  lemma OwnCheckSteps(s: State, a: Action)
    requires Inv(s) && Enabled(s, a) && (a.CheckUpload? || a.CheckStored?)
    ensures DiskInv(Apply(s, a), Apply(s, a).ups[a.t])
  {
    assert DiskInv(s, s.ups[a.t]) && CheckedInv(s.accepted, s.ups[a.t]);
  }

  lemma OwnFileSteps(s: State, a: Action)
    requires Inv(s) && Enabled(s, a) && (a.Write? || a.MissFile?)
    ensures DiskInv(Apply(s, a), Apply(s, a).ups[a.t])
  {
    assert DiskInv(s, s.ups[a.t]) && CheckedInv(s.accepted, s.ups[a.t]);
  }

  lemma OwnRunStep(s: State, a: Action)
    requires Inv(s) && Enabled(s, a) && a.Run?
    ensures DiskInv(Apply(s, a), Apply(s, a).ups[a.t])
  {
    assert DiskInv(s, s.ups[a.t]) && CheckedInv(s.accepted, s.ups[a.t]);
  }

  lemma OwnCleanUpStep(s: State, a: Action)
    requires Inv(s) && Enabled(s, a) && a.CleanUp?
    ensures DiskInv(Apply(s, a), Apply(s, a).ups[a.t])
  {
    assert DiskInv(s, s.ups[a.t]) && CheckedInv(s.accepted, s.ups[a.t]);
  }

  lemma OwnDiskStep(s: State, a: Action)
    requires Inv(s) && Enabled(s, a) && !a.DownRemoves?
    ensures DiskInv(Apply(s, a), Apply(s, a).ups[a.t])
  {
    match a
    case CheckUpload(_, _) => OwnCheckSteps(s, a);
    case CheckStored(_, _) => OwnCheckSteps(s, a);
    case Write(_, _) => OwnFileSteps(s, a);
    case MissFile(_) => OwnFileSteps(s, a);
    case Run(_, _) => OwnRunStep(s, a);
    case CleanUp(_, _, _) => OwnCleanUpStep(s, a);
    case _ => OwnFirstSteps(s, a);
  }

  lemma DownStep(s: State, p: Project, u: Up)
    requires Enabled(s, DownRemoves(p)) && DiskInv(s, u)
    ensures DiskInv(Apply(s, DownRemoves(p)), u)
  {
  }

  lemma SameDirSameInv(s: State, s': State, u: Up)
    requires DiskInv(s, u)
    requires Lookup(s', u.project) == Lookup(s, u.project) && Removals(s', u.project) == Removals(s, u.project)
    ensures DiskInv(s', u)
  {
  }

  lemma OutsideKnowsNothing(s: State, s': State, u: Up)
    requires DiskInv(s, u) && !Inside(u) && Removals(s, u.project) <= Removals(s', u.project)
    ensures DiskInv(s', u)
  {
  }

  lemma DiskStep(s: State, a: Action, t: Request)
    requires Inv(s) && Enabled(s, a) && t in Apply(s, a).ups
    ensures DiskInv(Apply(s, a), Apply(s, a).ups[t])
  {
    if a.DownRemoves? {
      assert DiskInv(s, s.ups[t]);
      DownStep(s, a.project, s.ups[t]);
    } else if t == a.t {
      OwnDiskStep(s, a);
    } else {
      OthersKeepUp(s, a, t);
      var u := s.ups[t];
      assert DiskInv(s, u);
      if a.t in s.ups && Inside(s.ups[a.t]) && s.ups[a.t].project == u.project {
        if Inside(u) { Alone(s, t, a.t); }
        OnlyDownsRemove(s, a, u.project);
        OutsideKnowsNothing(s, Apply(s, a), u);
      } else {
        DirKept(s, a, u.project);
        SameDirSameInv(s, Apply(s, a), u);
      }
    }
  }

  lemma OnlyDownsRemove(s: State, a: Action, p: Project)
    requires Enabled(s, a)
    ensures Removals(Apply(s, a), p) == Removals(s, p) + if a == DownRemoves(p) then 1 else 0
    ensures Apply(s, a).start == s.start
  {
  }

  lemma StepKeepsInv(s: State, a: Action)
    requires Inv(s) && Enabled(s, a)
    ensures Inv(Apply(s, a))
  {
    var s' := Apply(s, a);
    LocksStep(s, a);
    forall t | t in s'.ups
      ensures HoldsLock(s'.locks, t, s'.ups[t]) && CheckedInv(s'.accepted, s'.ups[t]) && DiskInv(s', s'.ups[t])
    {
      DiskStep(s, a, t);
      if !a.DownRemoves? && t == a.t {
        OwnLockStep(s, a);
        if Ends(a) { OwnLastChecked(s, a); } else { OwnCheckedStep(s, a); }
      } else {
        OthersKeepUp(s, a, t);
        OthersKeepLock(s, a, t);
        assert CheckedInv(s.accepted, s.ups[t]);
      }
    }
    forall p ensures StoredInv(s', p) { StoredStep(s, a, p); }
  }

  lemma {:induction false} RunKeepsInv(states: seq<State>, actions: seq<Action>, i: nat)
    requires IsRun(states, actions) && i < |states|
    ensures Inv(states[i]) && states[i].start == states[0].disk
  {
    if i > 0 {
      RunKeepsInv(states, actions, i - 1);
      StepKeepsInv(states[i - 1], actions[i - 1]);
      OnlyDownsRemove(states[i - 1], actions[i - 1], "");
    }
  }

  // ---------------------------------------------------------------- what holds of whole runs

  // Bodies for one project never overlap.
  lemma MutualExclusion(states: seq<State>, actions: seq<Action>, i: nat, t: Request, u: Request)
    requires IsRun(states, actions) && i < |states| && t in states[i].ups && u in states[i].ups
    requires Inside(states[i].ups[t]) && Inside(states[i].ups[u]) && t != u
    ensures states[i].ups[t].project != states[i].ups[u].project
  {
    RunKeepsInv(states, actions, i);
    if states[i].ups[t].project == states[i].ups[u].project { Alone(states[i], t, u); }
  }

  lemma {:induction false} LockNeverReplaced(states: seq<State>, actions: seq<Action>, i: nat, j: nat, p: Project)
    requires IsRun(states, actions) && i <= j < |states| && p in states[i].locks.table
    ensures p in states[j].locks.table && states[j].locks.table[p] == states[i].locks.table[p]
  {
    if i < j {
      LockNeverReplaced(states, actions, i, j - 1, p);
      RunKeepsInv(states, actions, j - 1);
      assert Enabled(states[j - 1], actions[j - 1]);
      LocksStep(states[j - 1], actions[j - 1]);
    }
  }

  // The lock is held by a request between taking and releasing it.
  predicate HeldInside(s: State, l: Lock) {
    l in s.locks.held ==>
      s.locks.held[l] in s.ups && Inside(s.ups[s.locks.held[l]]) && s.ups[s.locks.held[l]].lock == l
  }

  lemma InsideStays(s: State, a: Action)
    requires Enabled(s, a) && !a.DownRemoves? && a.t in s.ups && Inside(s.ups[a.t]) && !a.Release?
    ensures a.t in Apply(s, a).ups && Inside(Apply(s, a).ups[a.t]) && Apply(s, a).ups[a.t].lock == s.ups[a.t].lock
  {
  }

  lemma HeldByOther(s: State, a: Action, l: Lock)
    requires Enabled(s, a) && HeldInside(s, l) && !UsesLocks(a)
    ensures HeldInside(Apply(s, a), l)
  {
    OtherStepsKeepLocks(s, a);
    if l in s.locks.held {
      var t := s.locks.held[l];
      if !a.DownRemoves? && a.t == t { InsideStays(s, a); } else { OthersKeepUp(s, a, t); }
    }
  }

  lemma HeldStep(s: State, a: Action, l: Lock)
    requires Inv(s) && Enabled(s, a) && HeldInside(s, l)
    ensures HeldInside(Apply(s, a), l)
  {
    if UsesLocks(a) {
      assert HoldsLock(s.locks, a.t, s.ups[a.t]);
    } else {
      HeldByOther(s, a, l);
    }
  }

  // No lock is held by a request that has let go of it or not taken it, whichever way it went.
  lemma {:induction false} LocksAreReleased(states: seq<State>, actions: seq<Action>, i: nat, l: Lock)
    requires IsRun(states, actions) && i < |states|
    ensures HeldInside(states[i], l)
  {
    if i > 0 {
      LocksAreReleased(states, actions, i - 1, l);
      RunKeepsInv(states, actions, i - 1);
      assert Enabled(states[i - 1], actions[i - 1]);
      HeldStep(states[i - 1], actions[i - 1], l);
    }
  }

  // The name decides the lock, at whatever times two requests ask for it, and requests for
  // different projects never wait for each other.
  lemma SameNameSameLock(states: seq<State>, actions: seq<Action>, i: nat, t: Request, j: nat, u: Request)
    requires IsRun(states, actions) && i <= j < |states| && t in states[i].ups && u in states[j].ups
    requires !states[i].ups[t].pc.Arrived? && !states[j].ups[u].pc.Arrived?
    ensures states[i].ups[t].project == states[j].ups[u].project <==> states[i].ups[t].lock == states[j].ups[u].lock
  {
    RunKeepsInv(states, actions, i);
    RunKeepsInv(states, actions, j);
    assert HoldsLock(states[i].locks, t, states[i].ups[t]);
    assert HoldsLock(states[j].locks, u, states[j].ups[u]);
    LockNeverReplaced(states, actions, i, j, states[i].ups[t].project);
  }

  // A step of the request that goes wrong.
  predicate GoesWrong(a: Action, t: Request) {
    match a
    case Resolve(u, ok) => u == t && !ok
    case CheckUpload(u, ok) => u == t && !ok
    case Write(u, ok) => u == t && !ok
    case MissFile(u) => u == t
    case CheckStored(u, ok) => u == t && !ok
    case Run(u, ok) => u == t && !ok
    case _ => false
  }

  lemma OwnFailedStep(s: State, a: Action)
    requires Enabled(s, a) && !a.DownRemoves?
    ensures UpAfter(s, a).failed <==> (a.t in s.ups && s.ups[a.t].failed) || GoesWrong(a, a.t)
    ensures a.t !in s.ups ==> !GoesWrong(a, a.t)
  {
  }

  lemma FailedStep(s: State, a: Action, t: Request)
    requires Enabled(s, a) && t in Apply(s, a).ups
    ensures Apply(s, a).ups[t].failed <==> (t in s.ups && s.ups[t].failed) || GoesWrong(a, t)
    ensures t !in s.ups ==> !GoesWrong(a, t)
  {
    if !a.DownRemoves? && a.t == t { OwnFailedStep(s, a); } else { OthersKeepUp(s, a, t); }
  }

  // An up fails exactly if one of its steps went wrong.
  lemma {:induction false} FailsWhenAStepDoes(states: seq<State>, actions: seq<Action>, i: nat, t: Request)
    requires IsRun(states, actions) && i < |states|
    ensures (t in states[i].ups && states[i].ups[t].failed) <==> exists k :: 0 <= k < i && GoesWrong(actions[k], t)
  {
    if i > 0 {
      var s, a := states[i - 1], actions[i - 1];
      assert Enabled(s, a);
      FailsWhenAStepDoes(states, actions, i - 1, t);
      if t in states[i].ups { FailedStep(s, a, t); }
    }
  }

  // ---------------------------------------------------------------- downs and the compose file

  // From after step f to before step i, no down removes the directory.
  predicate NoDown(actions: seq<Action>, p: Project, f: int, i: int)
    requires i <= |actions|
  {
    forall k :: 0 <= k && f < k < i ==> actions[k] != DownRemoves(p)
  }

  lemma {:induction false} RemovalsCount(states: seq<State>, actions: seq<Action>, p: Project, f: nat, i: nat)
    requires IsRun(states, actions) && f < i < |states| && actions[f] != DownRemoves(p)
    ensures Removals(states[f], p) <= Removals(states[i], p)
    ensures Removals(states[f], p) == Removals(states[i], p) <==> NoDown(actions, p, f, i)
  {
    OnlyDownsRemove(states[i - 1], actions[i - 1], p);
    if f + 1 < i { RemovalsCount(states, actions, p, f, i - 1); }
  }

  // The request looks for its directory or writes the compose file.
  predicate Touches(a: Action, t: Request) { a == Find(t) || a == Write(t, true) }

  predicate LastTouch(actions: seq<Action>, t: Request, f: nat, i: nat)
    requires i <= |actions|
  {
    f < i && Touches(actions[f], t) && forall k :: f < k < i ==> !Touches(actions[k], t)
  }

  predicate Located(u: Up) { !u.pc.Arrived? && !u.pc.Waiting? && !u.pc.Entered? }

  // A step of the request that leaves its marks and its write alone.
  lemma TouchStep(s: State, a: Action, t: Request)
    requires Enabled(s, a) && t in Apply(s, a).ups && Located(Apply(s, a).ups[t]) && !Touches(a, t)
    ensures t in s.ups && Located(s.ups[t])
    ensures var u, v := s.ups[t], Apply(s, a).ups[t];
            u.project == v.project && u.marks.file == v.marks.file && u.wrote == v.wrote
  {
  }

  lemma TouchSetsMark(s: State, a: Action, t: Request)
    requires Inv(s) && Enabled(s, a) && Touches(a, t)
    ensures t in s.ups && t in Apply(s, a).ups
    ensures var u := Apply(s, a).ups[t]; u.marks.file == Removals(s, u.project) && (u.wrote <==> a.Write?)
  {
    assert CheckedInv(s.accepted, s.ups[t]);
  }

  lemma {:induction false} FileMark(states: seq<State>, actions: seq<Action>, i: nat, t: Request) returns (f: nat)
    requires IsRun(states, actions) && i < |states| && t in states[i].ups && Located(states[i].ups[t])
    ensures LastTouch(actions, t, f, i)
    ensures var u := states[i].ups[t];
            u.marks.file == Removals(states[f], u.project) && (u.wrote <==> actions[f].Write?)
  {
    var s, a := states[i - 1], actions[i - 1];
    assert Enabled(s, a);
    if Touches(a, t) {
      f := i - 1;
      RunKeepsInv(states, actions, i - 1);
      TouchSetsMark(s, a, t);
    } else {
      TouchStep(s, a, t);
      f := FileMark(states, actions, i - 1, t);
    }
  }

  lemma RanStep(s: State, a: Action, t: Request)
    requires Enabled(s, a) && t in Apply(s, a).ups && Apply(s, a).ups[t].ran.Some?
    requires !(a.Run? && a.t == t) && t in s.ups && CheckedInv(s.accepted, s.ups[t])
    ensures var u, v := s.ups[t], Apply(s, a).ups[t];
            u.ran.Some? && u.project == v.project && u.marks.run == v.marks.run && u.marks.file == v.marks.file
  {
  }

  lemma {:induction false} RunMark(states: seq<State>, actions: seq<Action>, i: nat, t: Request) returns (r: nat)
    requires IsRun(states, actions) && i < |states| && t in states[i].ups && states[i].ups[t].ran.Some?
    ensures r < i && actions[r].Run? && actions[r].t == t && t in states[r].ups && Located(states[r].ups[t])
    ensures var u, v := states[r].ups[t], states[i].ups[t];
            && v.project == u.project && v.marks.file == u.marks.file
            && v.marks.run == Removals(states[r], u.project)
  {
    var s, a := states[i - 1], actions[i - 1];
    assert Enabled(s, a);
    if a.Run? && a.t == t {
      r := i - 1;
    } else {
      RunKeepsInv(states, actions, i - 1);
      if t !in s.ups { NewcomerIsFresh(s, a, t); }
      assert CheckedInv(s.accepted, s.ups[t]);
      RanStep(s, a, t);
      r := RunMark(states, actions, i - 1, t);
    }
  }

  lemma NewcomerIsFresh(s: State, a: Action, t: Request)
    requires Enabled(s, a) && t !in s.ups && t in Apply(s, a).ups
    ensures Apply(s, a).ups[t].ran.None? && Apply(s, a).ups[t].swept
  {
  }

  lemma UnsweptStep(s: State, a: Action, t: Request)
    requires Enabled(s, a) && t in Apply(s, a).ups && !Apply(s, a).ups[t].swept
    requires t in s.ups && CheckedInv(s.accepted, s.ups[t])
    ensures s.ups[t].project == Apply(s, a).ups[t].project
    ensures s.ups[t].swept ==>
              && a.CleanUp? && a.t == t && s.ups[t].project in Apply(s, a).disk
              && Apply(s, a).ups[t].marks.cleanUp == Removals(s, s.ups[t].project)
    ensures !s.ups[t].swept ==> Apply(s, a).ups[t].marks.cleanUp == s.ups[t].marks.cleanUp
  {
  }

  lemma {:induction false} CleanUpMark(states: seq<State>, actions: seq<Action>, i: nat, t: Request) returns (c: nat)
    requires IsRun(states, actions) && i < |states| && t in states[i].ups && !states[i].ups[t].swept
    ensures c < i && actions[c].CleanUp? && actions[c].t == t
    ensures var u := states[i].ups[t];
            u.project in states[c + 1].disk && u.marks.cleanUp == Removals(states[c], u.project)
  {
    var s, a := states[i - 1], actions[i - 1];
    assert Enabled(s, a);
    RunKeepsInv(states, actions, i - 1);
    if t !in s.ups { NewcomerIsFresh(s, a, t); }
    assert CheckedInv(s.accepted, s.ups[t]);
    UnsweptStep(s, a, t);
    if s.ups[t].swept {
      c := i - 1;
    } else {
      c := CleanUpMark(states, actions, i - 1, t);
    }
  }

  // The moment a request lets go of the lock.
  ghost predicate Leaves(states: seq<State>, actions: seq<Action>, i: nat, t: Request) {
    IsRun(states, actions) && i < |actions| && actions[i] == Release(t)
  }

  lemma AtRelease(states: seq<State>, actions: seq<Action>, i: nat, t: Request)
    requires Leaves(states, actions, i, t)
    ensures t in states[i].ups && states[i].ups[t].pc.Leaving?
    ensures var u := states[i].ups[t];
            && CheckedInv(states[i].accepted, u)
            && DiskInv(states[i], u)
            && Lookup(states[i + 1], u.project) == Lookup(states[i], u.project)
            && states[i + 1].accepted == states[i].accepted
  {
    RunKeepsInv(states, actions, i);
    assert Enabled(states[i], actions[i]);
    assert CheckedInv(states[i].accepted, states[i].ups[t]) && DiskInv(states[i], states[i].ups[t]);
  }

  // A failing up whose first look found no directory leaves none if its removal works,
  // whatever downs do; if the removal fails, it leaves one unless a down removes it after that.
  lemma FailedCreatorLeavesNoDirectory(states: seq<State>, actions: seq<Action>, i: nat, t: Request) returns (c: nat)
    requires Leaves(states, actions, i, t)
    requires t in states[i].ups && states[i].ups[t].failed && states[i].ups[t].found.None?
    ensures var u := states[i].ups[t];
            && (u.swept ==> u.project !in states[i + 1].disk)
            && (!u.swept ==>
                  && c < i && actions[c].CleanUp? && actions[c].t == t && u.project in states[c + 1].disk
                  && (u.project in states[i + 1].disk <==> NoDown(actions, u.project, c, i)))
  {
    AtRelease(states, actions, i, t);
    c := 0;
    if !states[i].ups[t].swept {
      c := CleanUpMark(states, actions, i, t);
      RemovalsCount(states, actions, states[i].ups[t].project, c, i);
    }
  }

  // What an up leaves of a directory `d` that its first look had found, if no down comes.
  function AsLeft(u: Up, d: Dir): Option<Dir> {
    if u.wrote then Some(d.(file := u.upload))
    else if u.failed && u.upload.None? && d == Dir(None, false) then None
    else Some(d)
  }

  // Where an up that found a directory stands after its own look at `d`; `gone` says
  // whether a down has come since.
  predicate LeftInv(now: Option<Dir>, gone: bool, u: Up, d: Dir) {
    && u.found.Some? && u.pc in {Preparing, Writing, Ready, CleaningUp, Leaving}
    && now == (if gone then None else AsLeft(u, d))
    && (u.upload.None? && d.file.None? ==> u.pc.Preparing? || u.failed)
  }

  lemma OwnLeftStep(s: State, a: Action, gone: bool, d: Dir)
    requires Enabled(s, a) && !a.DownRemoves? && !a.Release? && a.t in s.ups && CheckedInv(s.accepted, s.ups[a.t])
    requires LeftInv(Lookup(s, s.ups[a.t].project), gone, s.ups[a.t], d)
    ensures var u := Apply(s, a).ups[a.t];
            u.project == s.ups[a.t].project && LeftInv(Lookup(Apply(s, a), u.project), gone, u, d)
  {
  }

  lemma OtherLeftStep(s: State, a: Action, t: Request, gone: bool, d: Dir)
    requires Inv(s) && Enabled(s, a) && t in s.ups && (a.DownRemoves? || a.t != t)
    requires LeftInv(Lookup(s, s.ups[t].project), gone, s.ups[t], d)
    ensures var u, p := s.ups[t], s.ups[t].project;
            && t in Apply(s, a).ups && Apply(s, a).ups[t] == u
            && LeftInv(Lookup(Apply(s, a), p), gone || a == DownRemoves(p), u, d)
  {
    OthersKeepUp(s, a, t);
    if a != DownRemoves(s.ups[t].project) {
      if !a.DownRemoves? && a.t in s.ups && Inside(s.ups[a.t]) && s.ups[a.t].project == s.ups[t].project {
        Alone(s, t, a.t);
      }
      DirKept(s, a, s.ups[t].project);
    }
  }

  lemma LeftStep(s: State, a: Action, t: Request, gone: bool, d: Dir)
    requires Inv(s) && Enabled(s, a) && a != Release(t) && t in s.ups
    requires LeftInv(Lookup(s, s.ups[t].project), gone, s.ups[t], d)
    ensures t in Apply(s, a).ups
    ensures var u, p := Apply(s, a).ups[t], s.ups[t].project;
            u.project == p && LeftInv(Lookup(Apply(s, a), p), gone || a == DownRemoves(p), u, d)
  {
    if !a.DownRemoves? && a.t == t {
      assert CheckedInv(s.accepted, s.ups[t]);
      OwnLeftStep(s, a, gone, d);
    } else {
      OtherLeftStep(s, a, t, gone, d);
    }
  }

  // Request `t` gets its directory in step r.
  ghost predicate Resolves(states: seq<State>, actions: seq<Action>, r: nat, t: Request) {
    IsRun(states, actions) && r < |actions| && actions[r] == Resolve(t, true) && t in states[r].ups
  }

  lemma ResolveStep(s: State, t: Request)
    requires Inv(s) && Enabled(s, Resolve(t, true)) && s.ups[t].found.Some?
    ensures var s', p := Apply(s, Resolve(t, true)), s.ups[t].project;
            && p in s'.disk && t in s'.ups && s'.ups[t].project == p
            && (p !in s.disk ==> s'.disk[p] == Dir(None, false))
            && LeftInv(Lookup(s', p), false, s'.ups[t], s'.disk[p])
  {
    assert CheckedInv(s.accepted, s.ups[t]);
  }

  lemma NoDownStep(actions: seq<Action>, p: Project, r: nat, k: nat)
    requires r < k < |actions|
    ensures NoDown(actions, p, r, k + 1) <==> NoDown(actions, p, r, k) && actions[k] != DownRemoves(p)
  {
  }

  // What is known of request `t` from when it gets its directory until it lets go of the lock.
  ghost predicate LeftAt(states: seq<State>, actions: seq<Action>, r: nat, k: nat, t: Request)
    requires r < k < |states| && k <= |actions| && t in states[r].ups
  {
    var p := states[r].ups[t].project;
    && p in states[r + 1].disk && t in states[k].ups && states[k].ups[t].project == p
    && LeftInv(Lookup(states[k], p), !NoDown(actions, p, r, k), states[k].ups[t], states[r + 1].disk[p])
  }

  lemma LeftAtStart(states: seq<State>, actions: seq<Action>, r: nat, t: Request)
    requires Resolves(states, actions, r, t) && states[r].ups[t].found.Some?
    ensures LeftAt(states, actions, r, r + 1, t)
  {
    RunKeepsInv(states, actions, r);
    assert Enabled(states[r], actions[r]) && states[r + 1] == Apply(states[r], actions[r]);
    ResolveStep(states[r], t);
  }

  lemma LeftAtNext(states: seq<State>, actions: seq<Action>, r: nat, k: nat, t: Request)
    requires IsRun(states, actions) && r < k < |actions| && t in states[r].ups && LeftAt(states, actions, r, k, t)
    requires actions[k] != Release(t)
    ensures LeftAt(states, actions, r, k + 1, t)
  {
    RunKeepsInv(states, actions, k);
    var p := states[r].ups[t].project;
    assert Enabled(states[k], actions[k]) && states[k + 1] == Apply(states[k], actions[k]);
    NoDownStep(actions, p, r, k);
    LeftStep(states[k], actions[k], t, !NoDown(actions, p, r, k), states[r + 1].disk[p]);
  }

  lemma {:induction false} LeftSoFar(states: seq<State>, actions: seq<Action>, r: nat, k: nat, t: Request)
    requires Resolves(states, actions, r, t) && states[r].ups[t].found.Some? && r < k < |states|
    requires forall j :: r < j < k ==> actions[j] != Release(t)
    ensures LeftAt(states, actions, r, k, t)
  {
    if k == r + 1 {
      LeftAtStart(states, actions, r, t);
    } else {
      LeftSoFar(states, actions, r, k - 1, t);
      LeftAtNext(states, actions, r, k - 1, t);
    }
  }

  lemma GoneStep(s: State, a: Action, t: Request)
    requires Enabled(s, a) && (a == Release(t) || InPc(s, t, Gone))
    ensures InPc(Apply(s, a), t, Gone)
  {
  }

  // A request lets go of the lock once.
  lemma {:induction false} GoneAfterRelease(states: seq<State>, actions: seq<Action>, j: nat, k: nat, t: Request)
    requires Leaves(states, actions, j, t) && j < k < |states|
    ensures InPc(states[k], t, Gone)
  {
    assert Enabled(states[k - 1], actions[k - 1]);
    if j + 1 < k { GoneAfterRelease(states, actions, j, k - 1, t); }
    GoneStep(states[k - 1], actions[k - 1], t);
  }

  lemma {:induction false} LeftAtRelease(states: seq<State>, actions: seq<Action>, r: nat, i: nat, t: Request)
    requires Resolves(states, actions, r, t) && states[r].ups[t].found.Some?
    requires Leaves(states, actions, i, t) && r < i
    ensures LeftAt(states, actions, r, i, t)
  {
    AtRelease(states, actions, i, t);
    forall j | r < j < i ensures actions[j] != Release(t) {
      if actions[j] == Release(t) { GoneAfterRelease(states, actions, j, i, t); }
    }
    LeftSoFar(states, actions, r, i, t);
  }

  // What an up whose first look found a directory leaves, failing or not: nothing if a down
  // comes after it got its directory, otherwise the directory it got with its upload if that
  // was written, except that without an upload it removes an empty one.
  lemma DirectoryLeft(states: seq<State>, actions: seq<Action>, r: nat, i: nat, t: Request)
    requires Resolves(states, actions, r, t) && states[r].ups[t].found.Some?
    requires Leaves(states, actions, i, t) && r < i
    ensures t in states[i].ups && states[r].ups[t].project in states[r + 1].disk
    ensures var u, p := states[i].ups[t], states[r].ups[t].project;
            && u.project == p
            && Lookup(states[i + 1], p) ==
                 if NoDown(actions, p, r, i) then AsLeft(u, states[r + 1].disk[p]) else None
  {
    AtRelease(states, actions, i, t);
    LeftAtRelease(states, actions, r, i, t);
  }

  // An up makes its directory exactly if its first look found none, or a down took away the
  // one it found before its second look.
  lemma MakesDirectoryWhen(states: seq<State>, actions: seq<Action>, r: nat, t: Request) returns (f: nat)
    requires Resolves(states, actions, r, t)
    ensures f < r && actions[f] == Find(t)
    ensures var u := states[r].ups[t];
            u.project !in states[r].disk <==> u.found.None? || !NoDown(actions, u.project, f, r)
  {
    RunKeepsInv(states, actions, r);
    var u := states[r].ups[t];
    assert Enabled(states[r], actions[r]) && u.pc.Resolving?;
    assert CheckedInv(states[r].accepted, u) && DiskInv(states[r], u);
    f := FileMark(states, actions, r, t);
    RemovalsCount(states, actions, u.project, f, r);
  }

  // An up that had found a directory and has to make it again, because of such a down,
  // never removes it, except that without an upload it removes it as an empty one.
  lemma DirectoryMadeAgain(states: seq<State>, actions: seq<Action>, r: nat, i: nat, t: Request)
    requires Resolves(states, actions, r, t) && states[r].ups[t].found.Some?
    requires states[r].ups[t].project !in states[r].disk
    requires Leaves(states, actions, i, t) && r < i
    ensures t in states[i].ups
    ensures var u, p := states[i].ups[t], states[r].ups[t].project;
            && u.project == p
            && (p in states[i + 1].disk <==> u.upload.Some? && NoDown(actions, p, r, i))
            && (p in states[i + 1].disk ==> states[i + 1].disk[p] == Dir(if u.wrote then u.upload else None, false))
  {
    RunKeepsInv(states, actions, r);
    assert Enabled(states[r], actions[r]);
    ResolveStep(states[r], t);
    AtRelease(states, actions, i, t);
    LeftAtRelease(states, actions, r, i, t);
    DirectoryLeft(states, actions, r, i, t);
  }

  lemma {:induction false} FoundStays(states: seq<State>, actions: seq<Action>, r: nat, k: nat, t: Request)
    requires Resolves(states, actions, r, t) && r < k < |states|
    ensures t in states[k].ups
    ensures var u, v := states[r].ups[t], states[k].ups[t];
            !v.pc.Resolving? && Located(v) && v.found == u.found && v.project == u.project && v.upload == u.upload
  {
    assert Enabled(states[k - 1], actions[k - 1]);
    if r + 1 < k {
      FoundStays(states, actions, r, k - 1, t);
      FoundStep(states[k - 1], actions[k - 1], t);
    }
  }

  lemma FoundStep(s: State, a: Action, t: Request)
    requires Enabled(s, a) && t in s.ups && Located(s.ups[t]) && !s.ups[t].pc.Resolving?
    ensures t in Apply(s, a).ups
    ensures var u, v := s.ups[t], Apply(s, a).ups[t];
            !v.pc.Resolving? && Located(v) && v.found == u.found && v.project == u.project && v.upload == u.upload
  {
  }

  // When a failing up that made its directory leaves one: if its first look had found none,
  // exactly if its own removal fails and no down comes after that; if it had found one that
  // a down took away before the second look, exactly if it has an upload and no down comes
  // after it made the directory.
  lemma FailedMakerLeavesDirectory(states: seq<State>, actions: seq<Action>, r: nat, i: nat, t: Request) returns (c: nat)
    requires Resolves(states, actions, r, t) && states[r].ups[t].project !in states[r].disk
    requires Leaves(states, actions, i, t) && r < i && t in states[i].ups && states[i].ups[t].failed
    ensures var u, p := states[i].ups[t], states[r].ups[t].project;
            && u.project == p && u.found == states[r].ups[t].found
            && (u.found.None? && !u.swept ==> c < i && actions[c].CleanUp? && actions[c].t == t)
            && (p in states[i + 1].disk <==>
                  if u.found.None? then !u.swept && NoDown(actions, p, c, i)
                  else u.upload.Some? && NoDown(actions, p, r, i))
  {
    FoundStays(states, actions, r, i, t);
    c := 0;
    if states[i].ups[t].found.None? {
      c := FailedCreatorLeavesNoDirectory(states, actions, i, t);
    } else {
      DirectoryMadeAgain(states, actions, r, i, t);
    }
  }

  // A failing up that found a compose file leaves one exactly if no down removed the
  // directory since the up wrote its own file or, if it wrote none, since it looked.  It is
  // then its upload, or the directory is as it was found.
  lemma FailedUpKeepsStoredFile(states: seq<State>, actions: seq<Action>, i: nat, t: Request) returns (f: nat)
    requires Leaves(states, actions, i, t) && t in states[i].ups
    requires states[i].ups[t].failed
    requires states[i].ups[t].found.Some? && states[i].ups[t].found.value.file.Some?
    ensures LastTouch(actions, t, f, i)
    ensures var u, now := states[i].ups[t], Lookup(states[i + 1], states[i].ups[t].project);
            && (HasAnyFile(now) <==> NoDown(actions, u.project, f, i))
            && (HasAnyFile(now) ==> if actions[f].Write? then now.value.file == u.upload else now == u.found)
            && (actions[f].Write? ==> u.upload.Some? && u.checked == u.upload)
            && (NoDown(actions, u.project, -1, i) ==> FileKept(now, u))
  {
    AtRelease(states, actions, i, t);
    var p := states[i].ups[t].project;
    f := FileMark(states, actions, i, t);
    RemovalsCount(states, actions, p, f, i);
    if NoDown(actions, p, -1, i) { NoneRemoved(states, actions, p, i); }
  }

  lemma {:induction false} NoneRemoved(states: seq<State>, actions: seq<Action>, p: Project, i: nat)
    requires IsRun(states, actions) && i <= |actions| && NoDown(actions, p, -1, i)
    ensures Removals(states[i], p) == 0
  {
    if i > 0 {
      NoneRemoved(states, actions, p, i - 1);
      OnlyDownsRemove(states[i - 1], actions[i - 1], p);
    }
  }

  // `docker compose` is given the file that the same request had accepted exactly if no down
  // removed the directory between the request's last look or write and the run.
  lemma RunsOnlyWhatItChecked(states: seq<State>, actions: seq<Action>, i: nat, t: Request) returns (f: nat, r: nat)
    requires IsRun(states, actions) && i < |states| && t in states[i].ups
    requires states[i].ups[t].ran.Some?
    ensures r < i && actions[r].Run? && actions[r].t == t && LastTouch(actions, t, f, r)
    ensures var u := states[i].ups[t];
            && u.checked.Some? && u.checked.value in states[i].accepted
            && (u.upload.Some? ==> u.checked == u.upload)
            && (u.ran.value == u.checked <==> NoDown(actions, u.project, f, r))
  {
    RunKeepsInv(states, actions, i);
    var u := states[i].ups[t];
    assert CheckedInv(states[i].accepted, u) && DiskInv(states[i], u);
    r := RunMark(states, actions, i, t);
    f := FileMark(states, actions, r, t);
    RemovalsCount(states, actions, u.project, f, r);
  }

  // A successful up leaves the file it had accepted exactly if no down removed the directory
  // since it looked or wrote.
  lemma SuccessfulUpDeployedItsFile(states: seq<State>, actions: seq<Action>, i: nat, t: Request) returns (f: nat)
    requires Leaves(states, actions, i, t) && t in states[i].ups && !states[i].ups[t].failed
    ensures LastTouch(actions, t, f, i)
    ensures var u, p := states[i].ups[t], states[i].ups[t].project;
            && u.checked.Some? && u.checked.value in states[i + 1].accepted && u.ran.Some?
            && (u.upload.Some? ==> u.checked == u.upload)
            && (Stored(states[i + 1], p) == u.checked <==> NoDown(actions, p, f, i))
            && (NoDown(actions, p, f, i) ==> u.ran == Some(u.checked))
  {
    AtRelease(states, actions, i, t);
    f := FileMark(states, actions, i, t);
    RemovalsCount(states, actions, states[i].ups[t].project, f, i);
    if NoDown(actions, states[i].ups[t].project, f, i) { RanUndisturbed(states, actions, f, i, t); }
  }

  lemma RanUndisturbed(states: seq<State>, actions: seq<Action>, f: nat, i: nat, t: Request)
    requires IsRun(states, actions) && i < |states| && t in states[i].ups && states[i].ups[t].ran.Some?
    requires LastTouch(actions, t, f, i) && NoDown(actions, states[i].ups[t].project, f, i)
    ensures states[i].ups[t].ran == Some(states[i].ups[t].checked)
  {
    var g, r := RunsOnlyWhatItChecked(states, actions, i, t);
    NoTouchAfterRun(states, actions, r, i, t);
    assert Touches(actions[f], t) && Touches(actions[g], t);
    assert f == g;
  }

  lemma {:induction false} NoTouchAfterRun(states: seq<State>, actions: seq<Action>, r: nat, i: nat, t: Request)
    requires IsRun(states, actions) && r < i < |states| && actions[r].Run? && actions[r].t == t
    ensures t in states[i].ups && states[i].ups[t].pc in {CleaningUp, Leaving, Gone}
    ensures forall k :: r < k < i ==> !Touches(actions[k], t)
  {
    assert Enabled(states[i - 1], actions[i - 1]);
    if r + 1 < i { NoTouchAfterRun(states, actions, r, i - 1, t); }
  }

  // Every stored file is as it was at the start, or was accepted before it was written.
  // This holds with `compose_down` running as well.
  lemma StoredFilesWereAccepted(states: seq<State>, actions: seq<Action>, i: nat, p: Project)
    requires IsRun(states, actions) && i < |states| && Stored(states[i], p).Some?
    ensures Stored(states[i], p).value in states[i].accepted || Stored(states[i], p) == Stored(states[0], p)
  {
    RunKeepsInv(states, actions, i);
    assert StoredInv(states[i], p);
  }

  lemma WriteFollowsAcceptance(states: seq<State>, actions: seq<Action>, i: nat)
    requires IsRun(states, actions) && i < |actions| && actions[i].Write? && actions[i].ok
    ensures actions[i].t in states[i].ups
    ensures var u := states[i].ups[actions[i].t];
            u.upload.Some? && u.upload.value in states[i].accepted && Stored(states[i + 1], u.project) == u.upload
  {
    RunKeepsInv(states, actions, i);
    assert Enabled(states[i], actions[i]);
    assert CheckedInv(states[i].accepted, states[i].ups[actions[i].t]);
  }

  // ---------------------------------------------------------------- what `compose_down` breaks

  lemma Extend(states: seq<State>, actions: seq<Action>, a: Action)
    returns (states': seq<State>, actions': seq<Action>)
    requires IsRun(states, actions) && Enabled(states[|actions|], a)
    ensures actions' == actions + [a] && states' == states + [Apply(states[|actions|], a)]
    ensures IsRun(states', actions')
  {
    actions', states' := actions + [a], states + [Apply(states[|actions|], a)];
  }

  lemma ReachEntered() returns (states: seq<State>, actions: seq<Action>)
    ensures IsRun(states, actions) && |actions| == 3
    ensures states[3] == Initial(map["p" := Dir(Some("c"), false)])
                           .(locks := Locks(map["p" := 0], 1, map[0 := 0]),
                             ups := map[0 := NewUp("p", None).(pc := Entered)])
  {
    states, actions := [Initial(map["p" := Dir(Some("c"), false)])], [];
    states, actions := Extend(states, actions, Arrive(0, "p", None));
    states, actions := Extend(states, actions, GetLock(0));
    states, actions := Extend(states, actions, Acquire(0));
  }

  // Request 0 has found the stored file of project "p" and is about to prepare it.
  lemma ReachPreparing() returns (states: seq<State>, actions: seq<Action>)
    ensures IsRun(states, actions) && |actions| == 5 && actions[3] == Find(0)
    ensures var s := states[5];
            && s.disk == map["p" := Dir(Some("c"), false)]
            && s.ups == map[0 := NewUp("p", None).(pc := Preparing, found := Some(Dir(Some("c"), false)))]
  {
    states, actions := ReachEntered();
    states, actions := Extend(states, actions, Find(0));
    states, actions := Extend(states, actions, Resolve(0, true));
  }

  // A down has taken the directory away since.
  lemma ReachDowned() returns (states: seq<State>, actions: seq<Action>)
    ensures IsRun(states, actions) && |actions| == 6 && actions[3] == Find(0) && actions[5] == DownRemoves("p")
    ensures states[6].disk == map[]
    ensures states[6].ups == map[0 := NewUp("p", None).(pc := Preparing, found := Some(Dir(Some("c"), false)))]
  {
    states, actions := ReachPreparing();
    states, actions := Extend(states, actions, DownRemoves("p"));
  }

  lemma ReachMissed() returns (states: seq<State>, actions: seq<Action>)
    ensures IsRun(states, actions) && |actions| == 7 && actions[3] == Find(0) && actions[5] == DownRemoves("p")
    ensures states[7].disk == map[]
    ensures states[7].ups == map[0 := Fail(NewUp("p", None).(found := Some(Dir(Some("c"), false))), CleaningUp)]
  {
    states, actions := ReachDowned();
    states, actions := Extend(states, actions, MissFile(0));
  }

  // A down between two steps of an up takes away the file that the up had found, so when the
  // failing up lets go of the lock nothing is left.
  lemma DownCanRemoveTheFoundFile() returns (states: seq<State>, actions: seq<Action>)
    ensures IsRun(states, actions) && |actions| == 9
    ensures actions[3] == Find(0) && actions[5] == DownRemoves("p") && actions[8] == Release(0)
    ensures var s := states[8];
            && 0 in s.ups && s.ups[0].project == "p" && s.ups[0].failed
            && s.ups[0].found == Some(Dir(Some("c"), false)) && "p" !in s.disk
  {
    states, actions := ReachMissed();
    states, actions := Extend(states, actions, CleanUp(0, true, Dir(None, false)));
    states, actions := Extend(states, actions, Release(0));
  }

  // Nor does what is deployed have to be what was accepted.
  lemma DownCanRemoveTheCheckedFile() returns (states: seq<State>, actions: seq<Action>)
    ensures IsRun(states, actions)
    ensures var u := states[|actions|].ups;
            0 in u && u[0].checked == Some("c") && u[0].ran == Some(None)
  {
    states, actions := ReachPreparing();
    states, actions := Extend(states, actions, CheckStored(0, true));
    states, actions := Extend(states, actions, DownRemoves("p"));
    states, actions := Extend(states, actions, Run(0, false));
  }

  // Request 0 uploads to project "p", whose stored file it has found.
  lemma ReachFound() returns (states: seq<State>, actions: seq<Action>)
    ensures IsRun(states, actions) && |actions| == 4 && actions[3] == Find(0)
    ensures states[4].disk == map["p" := Dir(Some("c"), false)]
    ensures states[4].ups ==
              map[0 := NewUp("p", Some("x")).(pc := Resolving, found := Some(Dir(Some("c"), false)))]
  {
    states, actions := [Initial(map["p" := Dir(Some("c"), false)])], [];
    states, actions := Extend(states, actions, Arrive(0, "p", Some("x")));
    states, actions := Extend(states, actions, GetLock(0));
    states, actions := Extend(states, actions, Acquire(0));
    states, actions := Extend(states, actions, Find(0));
  }

  // A down takes the directory away before the second look, which makes it again.
  lemma ReachMadeAgain() returns (states: seq<State>, actions: seq<Action>)
    ensures IsRun(states, actions) && |actions| == 6
    ensures actions[3..] == [Find(0), DownRemoves("p"), Resolve(0, true)]
    ensures states[5].disk == map[] && states[6].disk == map["p" := Dir(None, false)]
    ensures states[6].ups ==
              map[0 := NewUp("p", Some("x")).(pc := Preparing, found := Some(Dir(Some("c"), false)))]
  {
    states, actions := ReachFound();
    states, actions := Extend(states, actions, DownRemoves("p"));
    states, actions := Extend(states, actions, Resolve(0, true));
  }

  // When the upload is then rejected, the up leaves the empty directory it has made.
  lemma RejectedUpCanLeaveEmptyDirectory() returns (states: seq<State>, actions: seq<Action>)
    ensures IsRun(states, actions) && |actions| == 9
    ensures actions[3..] ==
              [Find(0), DownRemoves("p"), Resolve(0, true), CheckUpload(0, false),
               CleanUp(0, true, Dir(None, false)), Release(0)]
    ensures 0 in states[8].ups && states[8].ups[0].failed && states[8].ups[0].swept
    ensures states[5].disk == map[] && states[9].disk == map["p" := Dir(None, false)]
  {
    states, actions := ReachMadeAgain();
    states, actions := Extend(states, actions, CheckUpload(0, false));
    states, actions := Extend(states, actions, CleanUp(0, true, Dir(None, false)));
    states, actions := Extend(states, actions, Release(0));
  }
}
