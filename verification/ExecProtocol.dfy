/** The per-IP slots, the exec registry and the reviewer sweep of
    skiff/routers/containers_ws.py as a transition system, with the PROFILE writes of
    skiff/routers/system.py and skiff/routers/setup.py.

    Any number of handlers, sweeps, resets and cap edits are interleaved freely.  A
    `with _ws_lock` block is one step, except that of `_try_register_exec_ws`: its
    PROFILE read and its insertion are two steps with the lock held in between, because
    PROFILE is written by threads that do not take that lock. */
module ExecProtocol {
  import opened Text

  type Ip = nat
  type Id = nat

  datatype Kind = Logs | Exec

  datatype Pc =
    | Checking                      // exec only: phase 1, the cheap PROFILE check
    | Acquiring
    | Registering                   // exec only, holds a slot
    | InRegister(sawReviewer: bool) // inside the lock, PROFILE already read
    | InSession
    | Unregistering                 // exec only
    | Releasing
    | Over

  datatype Handler = Handler(ip: Ip, kind: Kind, pc: Pc)

  datatype Sweep = Flipped | Closing(pending: set<Id>, closed: set<Id>)

  // PROFILE is either "reviewer" or not; `boot` is `_BOOT_PROFILE`.
  datatype Profile = Profile(reviewer: bool, boot: bool)

  // `_ws_connections` and WS_MAX_PER_IP.  History: the largest cap so far.
  datatype Slots = Slots(counts: map<Ip, int>, cap: int, maxCap: int)

  datatype State = State(
    profile: Profile,
    lock: set<Id>,             // the handlers inside `_try_register_exec_ws`
    active: set<Id>,           // `_active_exec_ws`
    slots: Slots,
    handlers: map<Id, Handler>,
    sweeps: map<Id, Sweep>)

  datatype Action =
    | Connect(h: Id, ip: Ip, kind: Kind)
    | PreCheck(h: Id)
    | Acquire(h: Id)
    | LockAndRead(h: Id)
    | Commit(h: Id)
    | EndSession(h: Id)
    | Unregister(h: Id)
    | Release(h: Id)
    | Flip(w: Id)
    | Snapshot(w: Id)
    | Close(w: Id, h: Id)
    | Reset
    | SetCap(n: int)

  function Get(counts: map<Ip, int>, ip: Ip): int { if ip in counts then counts[ip] else 0 }

  predicate At(s: State, h: Id, pc: Pc) {
    h in s.handlers && s.handlers[h].pc == pc
  }

  predicate Enabled(s: State, a: Action) {
    match a
    case Connect(h, _, _) => h !in s.handlers
    case PreCheck(h) => At(s, h, Checking)
    case Acquire(h) => At(s, h, Acquiring) && s.lock == {}
    case LockAndRead(h) => At(s, h, Registering) && s.lock == {}
    case Commit(h) => h in s.handlers && s.handlers[h].pc.InRegister?
    case EndSession(h) => At(s, h, InSession)
    case Unregister(h) => At(s, h, Unregistering) && s.lock == {}
    case Release(h) => At(s, h, Releasing) && s.lock == {}
    case Flip(w) => w !in s.sweeps
    case Snapshot(w) => w in s.sweeps && s.sweeps[w].Flipped? && s.lock == {}
    case Close(w, h) => w in s.sweeps && s.sweeps[w].Closing? && h in s.sweeps[w].pending
    case Reset => true
    case SetCap(_) => true
  }

  function Move(s: State, h: Id, pc: Pc): State
    requires h in s.handlers
  {
    s.(handlers := s.handlers[h := s.handlers[h].(pc := pc)])
  }

  function Apply(s: State, a: Action): State
    requires Enabled(s, a)
  {
    match a
    case Connect(h, ip, kind) =>
      s.(handlers := s.handlers[h := Handler(ip, kind, if kind.Exec? then Checking else Acquiring)])
    case PreCheck(h) => Move(s, h, if s.profile.reviewer then Over else Acquiring)
    case Acquire(h) =>
      var ip := s.handlers[h].ip;
      var n := Get(s.slots.counts, ip);
      if n >= s.slots.cap
      then Move(s, h, Over).(slots := s.slots.(counts := s.slots.counts[ip := n]))
      else Move(s, h, if s.handlers[h].kind.Exec? then Registering else InSession)
             .(slots := s.slots.(counts := s.slots.counts[ip := n + 1]))
    case LockAndRead(h) => Move(s, h, InRegister(s.profile.reviewer)).(lock := {h})
    case Commit(h) =>
      if s.handlers[h].pc.sawReviewer
      then Move(s, h, Releasing).(lock := s.lock - {h})
      else Move(s, h, InSession).(lock := s.lock - {h}, active := s.active + {h})
    case EndSession(h) => Move(s, h, if s.handlers[h].kind.Exec? then Unregistering else Releasing)
    case Unregister(h) => Move(s, h, Releasing).(active := s.active - {h})
    case Release(h) =>
      var ip := s.handlers[h].ip;
      Move(s, h, Over)
        .(slots := s.slots.(counts := s.slots.counts[ip := Max(0, Get(s.slots.counts, ip) - 1)]))
    case Flip(w) => s.(profile := s.profile.(reviewer := true), sweeps := s.sweeps[w := Flipped])
    case Snapshot(w) => s.(active := {}, sweeps := s.sweeps[w := Closing(s.active, {})])
    case Close(w, h) =>
      s.(sweeps := s.sweeps[w := s.sweeps[w].(closed := s.sweeps[w].closed + {h})])
    case Reset => s.(profile := s.profile.(reviewer := s.profile.boot))
    case SetCap(n) => s.(slots := s.slots.(cap := n, maxCap := Max(s.slots.maxCap, n)))
  }

  function Initial(boot: bool, cap: int): State {
    State(Profile(boot, boot), {}, {}, Slots(map[], cap, cap), map[], map[])
  }

  ghost predicate IsRun(states: seq<State>, actions: seq<Action>) {
    && |states| == |actions| + 1
    && states[0] == Initial(states[0].profile.boot, states[0].slots.cap)
    && forall i {:trigger actions[i]} :: 0 <= i < |actions| ==>
         Enabled(states[i], actions[i]) && states[i + 1] == Apply(states[i], actions[i])
  }

  // ---------------------------------------------------------------- invariant

  // Between `_ws_acquire` and `_ws_release`.
  predicate HoldsSlot(pc: Pc) {
    pc.Registering? || pc.InRegister? || pc.InSession? || pc.Unregistering? || pc.Releasing?
  }

  function Holders(s: State, ip: Ip): set<Id> {
    set h | h in s.handlers && s.handlers[h].ip == ip && HoldsSlot(s.handlers[h].pc)
  }

  // An exec session that has registered and not unregistered yet.
  predicate Live(s: State, h: Id) {
    h in s.handlers && s.handlers[h].kind.Exec? && s.handlers[h].pc in {InSession, Unregistering}
  }

  ghost predicate Swept(s: State, h: Id) {
    exists w :: w in s.sweeps && s.sweeps[w].Closing? && h in s.sweeps[w].pending
  }

  ghost predicate HandlerInv(s: State, h: Id)
    requires h in s.handlers
  {
    var Handler(_, kind, pc) := s.handlers[h];
    && (pc.InRegister? ==> s.lock == {h})
    && (pc.Checking? || pc.Registering? || pc.InRegister? || pc.Unregistering? ==> kind.Exec?)
    && (h in s.active ==> Live(s, h))
    && (Live(s, h) ==> h in s.active || Swept(s, h))
  }

  ghost predicate SlotInv(s: State, ip: Ip) {
    && Get(s.slots.counts, ip) == |Holders(s, ip)|
    && |Holders(s, ip)| <= Max(0, s.slots.maxCap)
  }

  ghost predicate Inv(s: State) {
    && (forall h :: h in s.handlers ==> HandlerInv(s, h))
    && (forall h :: h in s.lock || h in s.active ==> h in s.handlers)
    && (forall h :: h in s.lock ==> s.handlers[h].pc.InRegister?)
    && (forall ip :: SlotInv(s, ip))
    && s.slots.cap <= s.slots.maxCap
  }

  // ---------------------------------------------------------------- every step keeps it

  lemma SweptStays(s: State, a: Action, h: Id)
    requires Enabled(s, a) && Swept(s, h)
    ensures Swept(Apply(s, a), h)
  {
    var w :| w in s.sweeps && s.sweeps[w].Closing? && h in s.sweeps[w].pending;
    assert w in Apply(s, a).sweeps && Apply(s, a).sweeps[w].Closing? && h in Apply(s, a).sweeps[w].pending;
  }

  lemma SnapshotSweeps(s: State, w: Id, h: Id)
    requires Enabled(s, Snapshot(w)) && h in s.active
    ensures Swept(Apply(s, Snapshot(w)), h)
  {
    assert h in Apply(s, Snapshot(w)).sweeps[w].pending;
  }

  lemma HandlerStep(s: State, a: Action, h: Id)
    requires Inv(s) && Enabled(s, a) && h in Apply(s, a).handlers
    ensures HandlerInv(Apply(s, a), h)
  {
    if h in s.handlers { assert HandlerInv(s, h); }
    if Swept(s, h) { SweptStays(s, a, h); }
    if a.Snapshot? && h in s.active { SnapshotSweeps(s, a.w, h); }
  }

  // What a step does to the holders of one address' slots.
  lemma HoldersStep(s: State, a: Action, ip: Ip)
    requires Inv(s) && Enabled(s, a)
    ensures Holders(Apply(s, a), ip) ==
            if a.Acquire? && HoldsSlot(Apply(s, a).handlers[a.h].pc) && s.handlers[a.h].ip == ip
            then Holders(s, ip) + {a.h}
            else if a.Release? && s.handlers[a.h].ip == ip then Holders(s, ip) - {a.h}
            else Holders(s, ip)
  {
  }

  lemma SlotAcquire(s: State, h: Id, ip: Ip)
    requires Inv(s) && Enabled(s, Acquire(h))
    ensures SlotInv(Apply(s, Acquire(h)), ip)
  {
    assert SlotInv(s, ip);
    HoldersStep(s, Acquire(h), ip);
  }

  lemma SlotRelease(s: State, h: Id, ip: Ip)
    requires Inv(s) && Enabled(s, Release(h))
    ensures SlotInv(Apply(s, Release(h)), ip)
  {
    assert SlotInv(s, ip);
    HoldersStep(s, Release(h), ip);
    assert h in Holders(s, s.handlers[h].ip);
  }

  lemma SlotStep(s: State, a: Action, ip: Ip)
    requires Inv(s) && Enabled(s, a)
    ensures SlotInv(Apply(s, a), ip)
  {
    match a
    case Acquire(h) => SlotAcquire(s, h, ip);
    case Release(h) => SlotRelease(s, h, ip);
    case _ =>
      assert SlotInv(s, ip);
      HoldersStep(s, a, ip);
  }

  lemma StepKeepsInv(s: State, a: Action)
    requires Inv(s) && Enabled(s, a)
    ensures Inv(Apply(s, a))
  {
    var s' := Apply(s, a);
    forall h | h in s'.handlers ensures HandlerInv(s', h) { HandlerStep(s, a, h); }
    forall ip ensures SlotInv(s', ip) { SlotStep(s, a, ip); }
  }

  lemma {:induction false} RunKeepsInv(states: seq<State>, actions: seq<Action>, i: nat)
    requires IsRun(states, actions) && i < |states|
    ensures Inv(states[i])
  {
    if i == 0 {
      forall ip ensures Holders(states[0], ip) == {} {}
    } else {
      RunKeepsInv(states, actions, i - 1);
      StepKeepsInv(states[i - 1], actions[i - 1]);
    }
  }

  // The value that the last of the first i steps to edit the cap gave it.
  function LatestCap(actions: seq<Action>, i: nat, start: int): int
    requires i <= |actions|
  {
    if i == 0 then start
    else if actions[i - 1].SetCap? then actions[i - 1].n
    else LatestCap(actions, i - 1, start)
  }

  // The cap in force is the one set last.
  lemma {:induction false} CapIsLatest(states: seq<State>, actions: seq<Action>, i: nat)
    requires IsRun(states, actions) && i < |states|
    ensures states[i].slots.cap == LatestCap(actions, i, states[0].slots.cap)
  {
    if i > 0 {
      CapIsLatest(states, actions, i - 1);
      assert Enabled(states[i - 1], actions[i - 1]);
    }
  }

  // ---------------------------------------------------------------- PROFILE and the first check

  // A reset sets PROFILE to what it was at boot, and nothing changes that value.
  lemma {:induction false} ResetRestoresBoot(states: seq<State>, actions: seq<Action>, i: nat)
    requires IsRun(states, actions) && i < |states|
    ensures states[i].profile.boot == states[0].profile.reviewer
    ensures i > 0 && actions[i - 1].Reset? ==> states[i].profile.reviewer == states[0].profile.reviewer
    ensures i > 0 && actions[i - 1].Flip? ==> states[i].profile.reviewer
  {
    if i > 0 {
      assert Enabled(states[i - 1], actions[i - 1]);
      ResetRestoresBoot(states, actions, i - 1);
    }
  }

  // An exec handler past the first check.
  predicate PastCheck(s: State, h: Id) {
    h in s.handlers && s.handlers[h].kind.Exec? && s.handlers[h].pc !in {Checking, Over}
  }

  lemma PastCheckStep(s: State, a: Action, h: Id)
    requires Enabled(s, a) && PastCheck(Apply(s, a), h)
    ensures PastCheck(s, h) || (a == PreCheck(h) && !s.profile.reviewer)
  {
  }

  // An exec handler that goes for a slot has read a PROFILE other than reviewer.
  lemma {:induction false} ExecHandlerWasChecked(states: seq<State>, actions: seq<Action>, i: nat, h: Id) returns (k: nat)
    requires IsRun(states, actions) && i < |states| && PastCheck(states[i], h)
    ensures k < i && actions[k] == PreCheck(h) && !states[k].profile.reviewer
  {
    assert Enabled(states[i - 1], actions[i - 1]);
    PastCheckStep(states[i - 1], actions[i - 1], h);
    if PastCheck(states[i - 1], h) {
      k := ExecHandlerWasChecked(states, actions, i - 1, h);
    } else {
      k := i - 1;
    }
  }

  // ---------------------------------------------------------------- the reviewer latch

  // Reviewer mode with nothing registered, and nobody about to register on the
  // strength of an older PROFILE read.
  predicate Latched(s: State) {
    && s.profile.reviewer
    && s.active == {}
    && (forall h :: h in s.handlers && s.handlers[h].pc.InRegister? ==> s.handlers[h].pc.sawReviewer)
  }

  // A reset that takes PROFILE out of reviewer mode.
  predicate LeavesReviewer(s: State, a: Action) {
    a.Reset? && s.profile.reviewer && !s.profile.boot
  }

  lemma SnapshotLatches(s: State, w: Id)
    requires Inv(s) && Enabled(s, Snapshot(w)) && s.profile.reviewer
    ensures Latched(Apply(s, Snapshot(w)))
  {
    forall h | h in s.handlers ensures !s.handlers[h].pc.InRegister? { assert HandlerInv(s, h); }
  }

  lemma LatchStays(s: State, a: Action)
    requires Latched(s) && Enabled(s, a) && !LeavesReviewer(s, a)
    ensures Latched(Apply(s, a))
  {
  }

  // After a sweep's snapshot in reviewer mode no exec session is registered until a
  // reset changes PROFILE, however handlers, sweeps and flips interleave.
  lemma {:induction false} ReviewerLatch(states: seq<State>, actions: seq<Action>, i: nat, j: nat)
    requires IsRun(states, actions) && i < j < |states|
    requires actions[i].Snapshot? && states[i].profile.reviewer
    requires forall k :: i < k < j ==> !LeavesReviewer(states[k], actions[k])
    ensures states[j].active == {} && Latched(states[j])
  {
    if i + 1 == j {
      RunKeepsInv(states, actions, i);
      SnapshotLatches(states[i], actions[i].w);
    } else {
      ReviewerLatch(states, actions, i, j - 1);
      LatchStays(states[j - 1], actions[j - 1]);
    }
  }

  // Then every exec session that is still open is on the list of a sweep that closes it.
  lemma LatchedSessionsAreSwept(states: seq<State>, actions: seq<Action>, i: nat, j: nat, h: Id)
    requires IsRun(states, actions) && i < j < |states|
    requires actions[i].Snapshot? && states[i].profile.reviewer
    requires forall k :: i < k < j ==> !LeavesReviewer(states[k], actions[k])
    requires Live(states[j], h)
    ensures Swept(states[j], h)
  {
    ReviewerLatch(states, actions, i, j);
    RunKeepsInv(states, actions, j);
    assert HandlerInv(states[j], h);
  }

  lemma SweepStep(s: State, a: Action, w: Id)
    requires Enabled(s, a) && w in s.sweeps && s.sweeps[w].Closing?
    ensures w in Apply(s, a).sweeps
    ensures Apply(s, a).sweeps[w] ==
            Closing(s.sweeps[w].pending, s.sweeps[w].closed + if a.Close? && a.w == w then {a.h} else {})
  {
  }

  // The list of a sweep is the registry as its snapshot took it; the sweep closes sessions on
  // that list only, and has closed those whose close has been made.
  lemma {:induction false} SweepClosesItsList(states: seq<State>, actions: seq<Action>, i: nat, j: nat, w: Id)
    requires IsRun(states, actions) && i < j < |states| && actions[i] == Snapshot(w)
    ensures w in states[j].sweeps && states[j].sweeps[w].Closing?
    ensures states[j].sweeps[w].pending == states[i].active && states[j].sweeps[w].closed <= states[i].active
    ensures forall h :: h in states[j].sweeps[w].closed <==> exists k :: i < k < j && actions[k] == Close(w, h)
  {
    assert Enabled(states[j - 1], actions[j - 1]) && states[j] == Apply(states[j - 1], actions[j - 1]);
    if i + 1 < j {
      SweepClosesItsList(states, actions, i, j - 1, w);
      SweepStep(states[j - 1], actions[j - 1], w);
      forall h ensures h in states[j].sweeps[w].closed <==> exists k :: i < k < j && actions[k] == Close(w, h) {
        if h in states[j - 1].sweeps[w].closed {
          var k :| i < k < j - 1 && actions[k] == Close(w, h);
          assert actions[k] == Close(w, h);
        } else if h in states[j].sweeps[w].closed {
          assert actions[j - 1] == Close(w, h);
        }
      }
    }
  }

  // A session that registered is, ever after, registered, swept or past its end.
  lemma {:induction false} NoSessionIsLost(states: seq<State>, actions: seq<Action>, h: Id, i: nat, j: nat)
    requires IsRun(states, actions) && i < j < |states|
    requires actions[i] == Commit(h) && h in states[i + 1].active
    ensures h in states[j].active || Swept(states[j], h)
         || (h in states[j].handlers && states[j].handlers[h].pc in {Releasing, Over})
  {
    if i + 1 < j {
      NoSessionIsLost(states, actions, h, i, j - 1);
      RunKeepsInv(states, actions, j - 1);
      var s, a := states[j - 1], actions[j - 1];
      if Swept(s, h) { SweptStays(s, a, h); }
      if a.Snapshot? && h in s.active { SnapshotSweeps(s, a.w, h); }
    }
  }

  // ---------------------------------------------------------------- slot accounting

  // The counter of an address is the number of its handlers between acquire and
  // release; it stays within the largest cap in force so far, and a release always
  // finds it positive, so the clamp at zero changes nothing.
  lemma SlotAccounting(states: seq<State>, actions: seq<Action>, i: nat, ip: Ip)
    requires IsRun(states, actions) && i < |states|
    ensures Get(states[i].slots.counts, ip) == |Holders(states[i], ip)|
    ensures Get(states[i].slots.counts, ip) <= Max(0, states[i].slots.maxCap)
    ensures i < |actions| && actions[i].Release? ==>
              Get(states[i].slots.counts, states[i].handlers[actions[i].h].ip) >= 1
  {
    RunKeepsInv(states, actions, i);
    assert SlotInv(states[i], ip);
    if i < |actions| && actions[i].Release? {
      var h := actions[i].h;
      assert SlotInv(states[i], states[i].handlers[h].ip);
      assert h in Holders(states[i], states[i].handlers[h].ip);
    }
  }

  lemma {:induction false} MaxCapWasSeen(states: seq<State>, actions: seq<Action>, i: nat)
    returns (k: nat)
    requires IsRun(states, actions) && i < |states|
    ensures k <= i && states[k].slots.cap == states[i].slots.maxCap
  {
    if states[i].slots.maxCap == states[i].slots.cap {
      k := i;
    } else {
      assert !actions[i - 1].SetCap? || states[i].slots.maxCap == states[i - 1].slots.maxCap;
      k := MaxCapWasSeen(states, actions, i - 1);
    }
  }

  // WS_MAX_PER_IP may be edited at any time: no address ever holds more slots than the
  // largest value in force so far.
  lemma SlotBound(states: seq<State>, actions: seq<Action>, i: nat, ip: Ip)
    requires IsRun(states, actions) && i < |states|
    ensures exists k :: 0 <= k <= i && |Holders(states[i], ip)| <= Max(0, states[k].slots.cap)
  {
    SlotAccounting(states, actions, i, ip);
    var k := MaxCapWasSeen(states, actions, i);
    assert |Holders(states[i], ip)| <= Max(0, states[k].slots.cap);
  }

  // A handler past its release stays there.
  lemma {:induction false} OverIsFinal(states: seq<State>, actions: seq<Action>, h: Id, i: nat, j: nat)
    requires IsRun(states, actions) && i <= j < |states| && At(states[i], h, Over)
    ensures At(states[j], h, Over)
  {
    if i < j {
      OverIsFinal(states, actions, h, i, j - 1);
      assert Enabled(states[j - 1], actions[j - 1]);
    }
  }

  lemma ReleasedAtMostOnce(states: seq<State>, actions: seq<Action>, h: Id, i: nat, j: nat)
    requires IsRun(states, actions) && i < j < |actions| && actions[i] == Release(h)
    ensures actions[j] != Release(h)
  {
    assert At(states[i + 1], h, Over);
    OverIsFinal(states, actions, h, i + 1, j);
    assert Enabled(states[j], actions[j]);
  }

  // Whatever way a handler that got a slot ends (session over, registration refused),
  // it has released the slot, once.
  lemma {:induction false} ReleasedOnEveryPath(states: seq<State>, actions: seq<Action>, h: Id, i: nat, j: nat)
    returns (k: nat)
    requires IsRun(states, actions) && i < j < |states|
    requires h in states[i].handlers && HoldsSlot(states[i].handlers[h].pc)
    requires At(states[j], h, Over)
    ensures i <= k < j && actions[k] == Release(h)
    ensures forall m :: 0 <= m < |actions| && actions[m] == Release(h) ==> m == k
  {
    if At(states[j - 1], h, Over) {
      if i == j - 1 { assert false; }
      k := ReleasedOnEveryPath(states, actions, h, i, j - 1);
    } else {
      k := j - 1;
      HolderStaysUntilRelease(states, actions, h, i, j - 1);
      assert actions[k] == Release(h);
      forall m | 0 <= m < |actions| && actions[m] == Release(h) ensures m == k {
        if m < k { ReleasedAtMostOnce(states, actions, h, m, k); }
        if k < m { ReleasedAtMostOnce(states, actions, h, k, m); }
      }
    }
  }

  lemma {:induction false} HolderStaysUntilRelease(states: seq<State>, actions: seq<Action>, h: Id, i: nat, j: nat)
    requires IsRun(states, actions) && i <= j < |states|
    requires h in states[i].handlers && HoldsSlot(states[i].handlers[h].pc)
    ensures h in states[j].handlers && (HoldsSlot(states[j].handlers[h].pc) || At(states[j], h, Over))
  {
    if i < j {
      HolderStaysUntilRelease(states, actions, h, i, j - 1);
      assert Enabled(states[j - 1], actions[j - 1]);
    }
  }

  // ---------------------------------------------------------------- check and insertion

  // A registration rests on a PROFILE read under the same hold of the lock, so no
  // sweep takes its snapshot between the two.
  lemma {:induction false} NoSnapshotInsideRegister(states: seq<State>, actions: seq<Action>, h: Id, j: nat)
    returns (k: nat)
    requires IsRun(states, actions) && j < |states|
    requires At(states[j], h, InRegister(false))
    ensures k < j && actions[k] == LockAndRead(h) && !states[k].profile.reviewer
    ensures forall m :: k < m < j ==> !actions[m].Snapshot?
  {
    RunKeepsInv(states, actions, j - 1);
    var s, a := states[j - 1], actions[j - 1];
    if a == LockAndRead(h) {
      k := j - 1;
    } else {
      assert At(s, h, InRegister(false));
      assert HandlerInv(s, h);
      k := NoSnapshotInsideRegister(states, actions, h, j - 1);
    }
  }

  lemma Extend(states: seq<State>, actions: seq<Action>, a: Action)
    returns (states': seq<State>, actions': seq<Action>)
    requires IsRun(states, actions) && Enabled(states[|actions|], a)
    ensures actions' == actions + [a] && states' == states + [Apply(states[|actions|], a)]
    ensures IsRun(states', actions')
  {
    actions', states' := actions + [a], states + [Apply(states[|actions|], a)];
  }

  // ---------------------------------------------------------------- between flip and snapshot

  // Step m puts handler h into the registry.
  predicate Registers(states: seq<State>, actions: seq<Action>, m: nat, h: Id)
    requires m < |actions| && |actions| < |states|
  {
    actions[m] == Commit(h) && h !in states[m].active && h in states[m + 1].active
  }

  // From a flip at k to step m, no reset changes PROFILE.
  ghost predicate SinceFlip(states: seq<State>, actions: seq<Action>, k: nat, m: nat) {
    && IsRun(states, actions) && k < m < |actions| && actions[k].Flip?
    && forall n :: k < n < m ==> !LeavesReviewer(states[n], actions[n])
  }

  predicate PastRegister(s: State, h: Id) {
    h in s.handlers && s.handlers[h].pc in {InSession, Unregistering, Releasing, Over}
  }

  lemma {:induction false} PastStays(states: seq<State>, actions: seq<Action>, h: Id, i: nat, j: nat)
    requires IsRun(states, actions) && i <= j < |states| && PastRegister(states[i], h)
    ensures PastRegister(states[j], h)
  {
    if i < j {
      PastStays(states, actions, h, i, j - 1);
      assert Enabled(states[j - 1], actions[j - 1]);
    }
  }

  lemma FlipStep(s: State, a: Action, h: Id)
    requires s.profile.reviewer && Enabled(s, a) && !LeavesReviewer(s, a)
    ensures Apply(s, a).profile.reviewer
    ensures At(Apply(s, a), h, InRegister(false)) ==> At(s, h, InRegister(false))
    ensures At(s, h, InRegister(false)) ==> At(Apply(s, a), h, InRegister(false)) || PastRegister(Apply(s, a), h)
  {
  }

  // A PROFILE read from before the flip is held only by whoever held it at the flip.
  lemma {:induction false} OldReadsSinceFlip(states: seq<State>, actions: seq<Action>, k: nat, m: nat, h: Id)
    requires SinceFlip(states, actions, k, m)
    ensures states[m].profile.reviewer
    ensures At(states[m], h, InRegister(false)) ==> At(states[k], h, InRegister(false))
    ensures At(states[k], h, InRegister(false)) ==> At(states[m], h, InRegister(false)) || PastRegister(states[m], h)
  {
    if k + 1 < m {
      OldReadsSinceFlip(states, actions, k, m - 1, h);
      FlipStep(states[m - 1], actions[m - 1], h);
      if PastRegister(states[m - 1], h) { PastStays(states, actions, h, m - 1, m); }
    }
  }

  // After a flip, and until a reset changes PROFILE, the handler that commits registers
  // exactly if at the flip it was inside the lock with an older PROFILE already read.
  lemma RegistersAfterFlipWhen(states: seq<State>, actions: seq<Action>, k: nat, m: nat, h: Id)
    requires SinceFlip(states, actions, k, m) && actions[m] == Commit(h)
    ensures Registers(states, actions, m, h) <==> At(states[k], h, InRegister(false))
  {
    OldReadsSinceFlip(states, actions, k, m, h);
    RunKeepsInv(states, actions, m);
    assert Enabled(states[m], actions[m]);
    assert HandlerInv(states[m], h);
  }

  // That handler holds the lock at the flip, so one session at most registers after it.
  lemma OneRegistersAfterFlip(states: seq<State>, actions: seq<Action>, k: nat, m: nat, g: Id, n: nat, h: Id)
    requires SinceFlip(states, actions, k, m) && SinceFlip(states, actions, k, n)
    requires Registers(states, actions, m, g) && Registers(states, actions, n, h)
    ensures states[k].lock == {h} && g == h && m == n
  {
    RegistersAfterFlipWhen(states, actions, k, m, g);
    RegistersAfterFlipWhen(states, actions, k, n, h);
    RunKeepsInv(states, actions, k);
    assert HandlerInv(states[k], g) && HandlerInv(states[k], h);
    if m < n { CommitsOnce(states, actions, m, n, h); }
    if n < m { CommitsOnce(states, actions, n, m, h); }
  }

  lemma CommitsOnce(states: seq<State>, actions: seq<Action>, m: nat, n: nat, h: Id)
    requires IsRun(states, actions) && m < n < |actions| && actions[m] == Commit(h)
    ensures actions[n] != Commit(h)
  {
    assert Enabled(states[m], actions[m]);
    PastStays(states, actions, h, m + 1, n);
    assert Enabled(states[n], actions[n]);
  }

  // A flip that comes while nobody is inside `_try_register_exec_ws` lets no session
  // register after it.  On the server every flip is of this kind: it runs on the event loop,
  // and so does a registration, which does not yield between its read and its insertion.
  lemma FlipOutsideRegisterIsFinal(states: seq<State>, actions: seq<Action>, k: nat, m: nat, h: Id)
    requires SinceFlip(states, actions, k, m) && states[k].lock == {}
    ensures !Registers(states, actions, m, h)
  {
    if actions[m] == Commit(h) {
      RegistersAfterFlipWhen(states, actions, k, m, h);
      RunKeepsInv(states, actions, k);
      if h in states[k].handlers { assert HandlerInv(states[k], h); }
    }
  }

  // A flip from another thread may fall between the read and the insertion, and then the
  // session registers after it; only the snapshot makes the latch hold.
  lemma FlipAloneIsNotEnough() returns (states: seq<State>, actions: seq<Action>, k: nat, m: nat)
    ensures SinceFlip(states, actions, k, m) && Registers(states, actions, m, 0)
    ensures states[m].profile.reviewer
    ensures forall n :: k < n < m ==> !actions[n].Snapshot?
  {
    states, actions := [Initial(false, 1)], [];
    states, actions := Extend(states, actions, Connect(0, 0, Exec));
    states, actions := Extend(states, actions, PreCheck(0));
    states, actions := Extend(states, actions, Acquire(0));
    states, actions := Extend(states, actions, LockAndRead(0));
    k := |actions|;
    states, actions := Extend(states, actions, Flip(1));
    m := |actions|;
    states, actions := Extend(states, actions, Commit(0));
  }
}
