/** The undo queue of skiff/undo.py as a transition system.

    Any number of enqueue calls, timer threads, cancel calls and shutdown flushes
    are interleaved freely.  A `with self._lock` block is one step; everything the
    code does outside the lock is a step of its own.  The fields below `maxCap` are
    history: no step reads them. */
module UndoProtocol {
  import opened Dict
  import opened Text

  type Token = nat
  type FlushId = nat

  datatype Outcome = Succeeded | AlreadyGone | Raised

  // Where the timer thread of one op stands in `_fire`.
  datatype TimerPc =
    | Created   // inserted, `t.start()` not run yet
    | Waiting   // started, the delay has not elapsed
    | Popping   // about to pop the entry
    | Marking   // holds the op, `op.fired = True` comes next
    | Gating    // about to read PROFILE
    | Calling   // about to call `op.fn`
    | Running
    | Counting  // `op.fn` raised, the failure is not counted yet
    | Finished

  // Where a flush stands with the op at position `next` of its snapshot.
  datatype FlushPc = Silencing | Guarding | Setting | Firing | Executing | Tallying

  datatype Flush = Flush(batch: seq<Token>, next: nat, pc: FlushPc, called: seq<Token>)

  // `_ops` by its keys, oldest first, and the cap UNDO_QUEUE_MAX_DEPTH.  History:
  // the largest cap so far and the rank of every insertion.
  datatype Queue = Queue(ops: seq<Token>, cap: int, maxCap: int, stamp: map<Token, nat>)

  // History: `slot` says which flush took an op and where it sits in that batch.
  datatype Flushes = Flushes(all: map<FlushId, Flush>, slot: map<Token, (FlushId, nat)>)

  // `_fire_failures`.  History: the calls that raised something but NotFound, and
  // those among them that were counted.
  datatype Tally = Tally(failures: nat, raised: multiset<Token>, counted: multiset<Token>)

  datatype State = State(
    queue: Queue,
    fired: set<Token>,              // ops whose `fired` flag is set
    silenced: set<Token>,           // ops whose Timer was told to cancel
    timers: map<Token, TimerPc>,
    cancelling: set<Token>,         // popped by cancel(), Timer.cancel() still to come
    flushes: Flushes,
    tally: Tally,
    reviewer: bool,                 // PROFILE == "reviewer"
    cancelled: multiset<Token>,     // history: cancel() calls that got the op
    timerTook: multiset<Token>,     // history: pops by a timer that got the op
    started: multiset<Token>)       // history: calls of `op.fn`

  datatype Action =
    | Enqueue(t: Token)
    | StartTimer(t: Token)
    | Expire(t: Token)
    | FirePop(t: Token)
    | FireMark(t: Token)
    | FireGate(t: Token)
    | FireCall(t: Token)
    | FireReturn(t: Token, o: Outcome)
    | FireCount(t: Token)
    | CancelPop(t: Token)
    | CancelTimer(t: Token)
    | FlushTake(f: FlushId)
    | FlushSilence(f: FlushId)
    | FlushGuard(f: FlushId)
    | FlushSet(f: FlushId)
    | FlushCall(f: FlushId)
    | FlushReturn(f: FlushId, o: Outcome)
    | FlushCount(f: FlushId)
    | SetCap(n: int)
    | SetProfile(reviewer: bool)

  predicate TimerAt(s: State, t: Token, pc: TimerPc) {
    t in s.timers && s.timers[t] == pc
  }

  predicate FlushAt(s: State, f: FlushId, pc: FlushPc) {
    f in s.flushes.all && s.flushes.all[f].next < |s.flushes.all[f].batch| && s.flushes.all[f].pc == pc
  }

  function Current(fl: Flush): Token
    requires fl.next < |fl.batch|
  {
    fl.batch[fl.next]
  }

  predicate Enabled(s: State, a: Action) {
    match a
    case Enqueue(t) => t !in s.queue.stamp
    case StartTimer(t) => TimerAt(s, t, Created)
    case Expire(t) => TimerAt(s, t, Waiting) && t !in s.silenced
    case FirePop(t) => TimerAt(s, t, Popping)
    case FireMark(t) => TimerAt(s, t, Marking)
    case FireGate(t) => TimerAt(s, t, Gating)
    case FireCall(t) => TimerAt(s, t, Calling)
    case FireReturn(t, _) => TimerAt(s, t, Running)
    case FireCount(t) => TimerAt(s, t, Counting)
    case CancelPop(_) => true
    case CancelTimer(t) => t in s.cancelling
    case FlushTake(f) => f !in s.flushes.all
    case FlushSilence(f) => FlushAt(s, f, Silencing)
    case FlushGuard(f) => FlushAt(s, f, Guarding)
    case FlushSet(f) => FlushAt(s, f, Setting)
    case FlushCall(f) => FlushAt(s, f, Firing)
    case FlushReturn(f, _) => FlushAt(s, f, Executing)
    case FlushCount(f) => FlushAt(s, f, Tallying)
    case SetCap(_) => true
    case SetProfile(_) => true
  }

  function Raise(tally: Tally, t: Token): Tally {
    tally.(raised := tally.raised + multiset{t})
  }

  function Count(tally: Tally, t: Token): Tally {
    tally.(failures := tally.failures + 1, counted := tally.counted + multiset{t})
  }

  // Pops under the lock get the op only if it is still there.
  function Pop(q: Queue, t: Token): Queue { q.(ops := Remove(q.ops, t)) }

  function QueueAfter(s: State, a: Action): Queue {
    var q := s.queue;
    match a
    case Enqueue(t) => if |q.ops| >= q.cap then q else q.(ops := q.ops + [t], stamp := q.stamp[t := |q.stamp|])
    case FirePop(t) => if t in q.ops then Pop(q, t) else q
    case CancelPop(t) => if t in q.ops then Pop(q, t) else q
    case FlushTake(_) => q.(ops := [])
    case SetCap(n) => q.(cap := n, maxCap := Max(q.maxCap, n))
    case _ => q
  }

  function TimersAfter(s: State, a: Action): map<Token, TimerPc> {
    match a
    case Enqueue(t) => if |s.queue.ops| >= s.queue.cap then s.timers else s.timers[t := Created]
    case StartTimer(t) => s.timers[t := Waiting]
    case Expire(t) => s.timers[t := Popping]
    case FirePop(t) => s.timers[t := if t in s.queue.ops then Marking else Finished]
    case FireMark(t) => s.timers[t := Gating]
    case FireGate(t) => s.timers[t := if s.reviewer then Finished else Calling]
    case FireCall(t) => s.timers[t := Running]
    case FireReturn(t, o) => s.timers[t := if o.Raised? then Counting else Finished]
    case FireCount(t) => s.timers[t := Finished]
    case _ => s.timers
  }

  // The flush, done with the current op, turns to the next one.
  function NextOp(fl: Flush): Flush { fl.(next := fl.next + 1, pc := Silencing) }

  predicate IsFlushStep(a: Action) {
    a.FlushSilence? || a.FlushGuard? || a.FlushSet? || a.FlushCall? || a.FlushReturn? || a.FlushCount?
  }

  // The acting flush after its step.
  function FlushAfter(s: State, a: Action): Flush
    requires Enabled(s, a) && IsFlushStep(a)
  {
    var fl := s.flushes.all[a.f];
    if a.FlushSilence? then fl.(pc := Guarding)
    else if a.FlushGuard? then (if Current(fl) in s.fired then NextOp(fl) else fl.(pc := Setting))
    else if a.FlushSet? then fl.(pc := Firing)
    else if a.FlushCall? then fl.(pc := Executing, called := fl.called + [Current(fl)])
    else if a.FlushReturn? && a.o.Raised? then fl.(pc := Tallying)
    else NextOp(fl)
  }

  function FlushesAfter(s: State, a: Action): Flushes
    requires Enabled(s, a)
  {
    if a.FlushTake? then
      var ops := s.queue.ops;
      Flushes(s.flushes.all[a.f := Flush(ops, 0, Silencing, [])],
              s.flushes.slot + map t | t in ops :: (a.f, PositionOf(ops, t)))
    else if IsFlushStep(a) then s.flushes.(all := s.flushes.all[a.f := FlushAfter(s, a)])
    else s.flushes
  }

  function TallyAfter(s: State, a: Action): Tally
    requires Enabled(s, a)
  {
    match a
    case FireReturn(t, o) => if o.Raised? then Raise(s.tally, t) else s.tally
    case FireCount(t) => Count(s.tally, t)
    case FlushReturn(f, o) => if o.Raised? then Raise(s.tally, Current(s.flushes.all[f])) else s.tally
    case FlushCount(f) => Count(s.tally, Current(s.flushes.all[f]))
    case _ => s.tally
  }

  function FiredAfter(s: State, a: Action): set<Token>
    requires Enabled(s, a)
  {
    if a.FireMark? then s.fired + {a.t}
    else if a.FlushSet? then s.fired + {Current(s.flushes.all[a.f])}
    else s.fired
  }

  function SilencedAfter(s: State, a: Action): set<Token>
    requires Enabled(s, a)
  {
    if a.CancelTimer? then s.silenced + {a.t}
    else if a.FlushSilence? then s.silenced + {Current(s.flushes.all[a.f])}
    else s.silenced
  }

  function StartedAfter(s: State, a: Action): multiset<Token>
    requires Enabled(s, a)
  {
    if a.FireCall? then s.started + multiset{a.t}
    else if a.FlushCall? then s.started + multiset{Current(s.flushes.all[a.f])}
    else s.started
  }

  function Apply(s: State, a: Action): State
    requires Enabled(s, a)
  {
    var cancels := a.CancelPop? && a.t in s.queue.ops;
    State(
      QueueAfter(s, a),
      FiredAfter(s, a),
      SilencedAfter(s, a),
      TimersAfter(s, a),
      if cancels then s.cancelling + {a.t} else if a.CancelTimer? then s.cancelling - {a.t} else s.cancelling,
      FlushesAfter(s, a),
      TallyAfter(s, a),
      if a.SetProfile? then a.reviewer else s.reviewer,
      if cancels then s.cancelled + multiset{a.t} else s.cancelled,
      if a.FirePop? && a.t in s.queue.ops then s.timerTook + multiset{a.t} else s.timerTook,
      StartedAfter(s, a))
  }

  function Initial(cap: int, reviewer: bool): State {
    State(Queue([], cap, cap, map[]), {}, {}, map[], {}, Flushes(map[], map[]),
          Tally(0, multiset{}, multiset{}), reviewer, multiset{}, multiset{}, multiset{})
  }

  ghost predicate IsRun(states: seq<State>, actions: seq<Action>) {
    && |states| == |actions| + 1
    && states[0] == Initial(states[0].queue.cap, states[0].reviewer)
    && forall i {:trigger actions[i]} :: 0 <= i < |actions| ==>
         Enabled(states[i], actions[i]) && states[i + 1] == Apply(states[i], actions[i])
  }

  // ---------------------------------------------------------------- invariant

  function One(b: bool): nat { if b then 1 else 0 }

  // How many of the four places hold token `t`.
  function Owners(s: State, t: Token): nat {
    One(t in s.queue.ops) + s.cancelled[t] + s.timerTook[t] + One(t in s.flushes.slot)
  }

  // What a flush has done to the op at position `i` of its batch.
  function Progress(fl: Flush, i: nat): nat {
    if i < fl.next then 6
    else if i > fl.next then 0
    else match fl.pc
         case Silencing => 0 case Guarding => 1 case Setting => 2
         case Firing => 3 case Executing => 4 case Tallying => 5
  }

  function SlotProgress(s: State, t: Token): nat
    requires t in s.flushes.slot
  {
    var (f, i) := s.flushes.slot[t];
    if f in s.flushes.all then Progress(s.flushes.all[f], i) else 0
  }

  // `t`'s run raised and its failure is still to be counted.
  predicate Awaiting(s: State, t: Token) {
    TimerAt(s, t, Counting) || (t in s.flushes.slot && SlotProgress(s, t) == 5)
  }

  predicate ByTimer(s: State, t: Token) {
    t in s.timers && s.timerTook[t] == 1 &&
    match s.timers[t]
    case Created => false
    case Waiting => false
    case Popping => false
    case Marking => s.started[t] == 0
    case Gating => s.started[t] == 0
    case Calling => s.started[t] == 0
    case Running => s.started[t] == 1 && s.tally.raised[t] == 0
    case Counting => s.started[t] == 1
    case Finished => s.started[t] <= 1
  }

  predicate ByFlush(s: State, t: Token) {
    t in s.flushes.slot && s.timerTook[t] == 0 &&
    var p := SlotProgress(s, t);
    && s.started[t] == One(p >= 4)
    && (t in s.fired <==> p >= 3)
    && (p <= 4 ==> s.tally.raised[t] == 0)
  }

  predicate Untouched(s: State, t: Token) {
    s.started[t] == 0 && t !in s.fired
  }

  predicate TimerIdle(s: State, t: Token) {
    t in s.timers ==> s.timers[t] in {Created, Waiting, Popping, Finished}
  }

  // Everything the invariant says about one token.
  predicate TokenInv(s: State, t: Token) {
    && (t in s.timers <==> t in s.queue.stamp)
    && Owners(s, t) == One(t in s.queue.stamp)
    && (s.timerTook[t] > 0 ==> ByTimer(s, t))
    && (s.timerTook[t] == 0 ==> TimerIdle(s, t))
    && (t in s.flushes.slot ==> ByFlush(s, t))
    && (s.timerTook[t] == 0 && t !in s.flushes.slot ==> Untouched(s, t))
    && s.tally.counted[t] + One(Awaiting(s, t)) == s.tally.raised[t] <= s.started[t]
  }

  // `ts` lists inserted tokens, oldest insertion first.
  ghost predicate Ordered(stamp: map<Token, nat>, ts: seq<Token>) {
    && (forall i :: 0 <= i < |ts| ==> ts[i] in stamp)
    && (forall i, j :: 0 <= i < j < |ts| ==> stamp[ts[i]] < stamp[ts[j]])
  }

  ghost predicate FlushInv(s: State, f: FlushId)
    requires f in s.flushes.all
  {
    var fl := s.flushes.all[f];
    && fl.next <= |fl.batch|
    && Ordered(s.queue.stamp, fl.batch)
    && (forall i :: 0 <= i < |fl.batch| ==> fl.batch[i] in s.flushes.slot && s.flushes.slot[fl.batch[i]] == (f, i))
    && fl.called == if fl.next < |fl.batch| && fl.pc in {Executing, Tallying}
                    then fl.batch[..fl.next + 1] else fl.batch[..fl.next]
  }

  predicate SlotInv(s: State, t: Token)
    requires t in s.flushes.slot
  {
    var (f, i) := s.flushes.slot[t];
    f in s.flushes.all && i < |s.flushes.all[f].batch| && s.flushes.all[f].batch[i] == t
  }

  ghost predicate QueueInv(s: State) {
    && Ordered(s.queue.stamp, s.queue.ops)
    && (forall t :: t in s.queue.stamp ==> s.queue.stamp[t] < |s.queue.stamp|)
    && |s.queue.ops| <= Max(0, s.queue.maxCap)
    && s.queue.cap <= s.queue.maxCap
  }

  ghost predicate Inv(s: State) {
    && QueueInv(s)
    && s.tally.failures == |s.tally.counted|
    && (forall f :: f in s.flushes.all ==> FlushInv(s, f))
    && (forall t :: t in s.flushes.slot ==> SlotInv(s, t))
    && (forall t :: TokenInv(s, t))
  }

  // ---------------------------------------------------------------- every step keeps it

  lemma {:induction false} RemoveMembers(xs: seq<Token>, x: Token, y: Token)
    requires Distinct(xs)
    ensures y in Remove(xs, x) <==> y in xs && y != x
  {
    if xs != [] {
      assert xs == [xs[0]] + xs[1..];
      if xs[0] == x {
        assert forall i :: 0 <= i < |xs[1..]| ==> xs[1..][i] == xs[i + 1] != x;
      } else {
        RemoveMembers(xs[1..], x, y);
      }
    }
  }

  // One lemma per kind of step: what it does to the invariant of an arbitrary token.

  lemma TokenEnqueue(s: State, u: Token, t: Token)
    requires Enabled(s, Enqueue(u)) && TokenInv(s, t)
    ensures TokenInv(Apply(s, Enqueue(u)), t)
  {
  }

  lemma TokenClockStep(s: State, a: Action, t: Token)
    requires a.StartTimer? || a.Expire? || a.CancelTimer? || a.SetCap? || a.SetProfile?
    requires Enabled(s, a) && TokenInv(s, t)
    ensures TokenInv(Apply(s, a), t)
  {
  }

  lemma TokenFireCall(s: State, u: Token, t: Token)
    requires Enabled(s, FireCall(u)) && TokenInv(s, t)
    ensures TokenInv(Apply(s, FireCall(u)), t)
  {
  }

  lemma TokenFireMark(s: State, u: Token, t: Token)
    requires Enabled(s, FireMark(u)) && TokenInv(s, t)
    ensures TokenInv(Apply(s, FireMark(u)), t)
  {
  }

  lemma TokenFireGate(s: State, u: Token, t: Token)
    requires Enabled(s, FireGate(u)) && TokenInv(s, t)
    ensures TokenInv(Apply(s, FireGate(u)), t)
  {
  }

  lemma TokenFireReturn(s: State, u: Token, o: Outcome, t: Token)
    requires Enabled(s, FireReturn(u, o)) && TokenInv(s, t)
    ensures TokenInv(Apply(s, FireReturn(u, o)), t)
  {
  }

  lemma TokenFireCount(s: State, u: Token, t: Token)
    requires Enabled(s, FireCount(u)) && TokenInv(s, t)
    ensures TokenInv(Apply(s, FireCount(u)), t)
  {
  }

  lemma TokenFirePopOther(s: State, u: Token, t: Token)
    requires Enabled(s, FirePop(u)) && TokenInv(s, t) && Distinct(s.queue.ops) && t != u
    ensures TokenInv(Apply(s, FirePop(u)), t)
  {
    RemoveMembers(s.queue.ops, u, t);
  }

  lemma TokenFirePopSelf(s: State, t: Token)
    requires Enabled(s, FirePop(t)) && TokenInv(s, t) && Distinct(s.queue.ops)
    ensures TokenInv(Apply(s, FirePop(t)), t)
  {
    RemoveMembers(s.queue.ops, t, t);
  }

  lemma TokenCancelPop(s: State, u: Token, t: Token)
    requires TokenInv(s, t) && Distinct(s.queue.ops)
    ensures TokenInv(Apply(s, CancelPop(u)), t)
  {
    RemoveMembers(s.queue.ops, u, t);
  }

  lemma TokenFlushTake(s: State, f: FlushId, t: Token)
    requires Enabled(s, FlushTake(f)) && TokenInv(s, t)
    requires t in s.flushes.slot ==> SlotInv(s, t)
    ensures TokenInv(Apply(s, FlushTake(f)), t)
  {
  }

  lemma TokenFlushSilence(s: State, f: FlushId, t: Token)
    requires Enabled(s, FlushSilence(f)) && TokenInv(s, t) && FlushInv(s, f)
    requires t in s.flushes.slot ==> SlotInv(s, t)
    ensures TokenInv(Apply(s, FlushSilence(f)), t)
  {
  }

  lemma TokenFlushPrepare(s: State, a: Action, t: Token)
    requires a.FlushGuard? || a.FlushSet?
    requires Enabled(s, a) && TokenInv(s, t) && FlushInv(s, a.f)
    requires t in s.flushes.slot ==> SlotInv(s, t)
    requires TokenInv(s, Current(s.flushes.all[a.f]))
    ensures TokenInv(Apply(s, a), t)
  {
  }

  lemma TokenFlushCall(s: State, f: FlushId, t: Token)
    requires Enabled(s, FlushCall(f)) && TokenInv(s, t) && FlushInv(s, f)
    requires t in s.flushes.slot ==> SlotInv(s, t)
    ensures TokenInv(Apply(s, FlushCall(f)), t)
  {
  }

  lemma TokenFlushReturn(s: State, f: FlushId, o: Outcome, t: Token)
    requires Enabled(s, FlushReturn(f, o)) && TokenInv(s, t) && FlushInv(s, f)
    requires t in s.flushes.slot ==> SlotInv(s, t)
    ensures TokenInv(Apply(s, FlushReturn(f, o)), t)
  {
  }

  lemma TokenFlushCount(s: State, f: FlushId, t: Token)
    requires Enabled(s, FlushCount(f)) && TokenInv(s, t) && FlushInv(s, f)
    requires t in s.flushes.slot ==> SlotInv(s, t)
    ensures TokenInv(Apply(s, FlushCount(f)), t)
  {
  }

  lemma OrderedDistinct(stamp: map<Token, nat>, ts: seq<Token>)
    requires Ordered(stamp, ts)
    ensures Distinct(ts)
  {
  }

  lemma TokenKept(s: State, a: Action, t: Token)
    requires Inv(s) && Enabled(s, a)
    ensures TokenInv(Apply(s, a), t)
  {
    assert TokenInv(s, t);
    OrderedDistinct(s.queue.stamp, s.queue.ops);
    match a
    case Enqueue(u) => TokenEnqueue(s, u, t);
    case FireMark(u) => TokenFireMark(s, u, t);
    case FireGate(u) => TokenFireGate(s, u, t);
    case FireCall(u) => TokenFireCall(s, u, t);
    case FireReturn(u, o) => TokenFireReturn(s, u, o, t);
    case FireCount(u) => TokenFireCount(s, u, t);
    case FirePop(u) => if t == u { TokenFirePopSelf(s, t); } else { TokenFirePopOther(s, u, t); }
    case CancelPop(u) => TokenCancelPop(s, u, t);
    case FlushTake(f) => TokenFlushTake(s, f, t);
    case FlushSilence(f) => TokenFlushSilence(s, f, t);
    case FlushGuard(f) => TokenFlushPrepare(s, a, t);
    case FlushSet(f) => TokenFlushPrepare(s, a, t);
    case FlushCall(f) => TokenFlushCall(s, f, t);
    case FlushReturn(f, o) => TokenFlushReturn(s, f, o, t);
    case FlushCount(f) => TokenFlushCount(s, f, t);
    case _ => TokenClockStep(s, a, t);
  }

  lemma {:induction false} RemoveKeepsOrder(stamp: map<Token, nat>, ts: seq<Token>, t: Token)
    requires Ordered(stamp, ts)
    ensures Ordered(stamp, Remove(ts, t))
    ensures forall u :: u in Remove(ts, t) ==> u in ts
  {
    if ts != [] && ts[0] != t {
      RemoveKeepsOrder(stamp, ts[1..], t);
      var r := Remove(ts[1..], t);
      forall i | 0 <= i < |r| ensures stamp[ts[0]] < stamp[r[i]] {
        assert r[i] in ts[1..];
      }
    }
  }

  predicate IsQueueStep(a: Action) {
    a.Enqueue? || a.FirePop? || a.CancelPop? || a.FlushTake? || a.SetCap?
  }

  lemma QueueFrame(s: State, a: Action)
    requires Enabled(s, a) && !IsQueueStep(a)
    ensures Apply(s, a).queue == s.queue
  {
  }

  lemma QueueKept(s: State, a: Action)
    requires QueueInv(s) && Enabled(s, a)
    ensures QueueInv(Apply(s, a))
  {
    if !IsQueueStep(a) {
      QueueFrame(s, a);
    } else {
      QueueStepKept(s, a);
    }
  }

  lemma QueueStepKept(s: State, a: Action)
    requires QueueInv(s) && Enabled(s, a) && IsQueueStep(a)
    ensures QueueInv(Apply(s, a))
  {
    match a
    case FirePop(t) => RemoveKeepsOrder(s.queue.stamp, s.queue.ops, t);
    case CancelPop(t) => RemoveKeepsOrder(s.queue.stamp, s.queue.ops, t);
    case _ =>
  }

  lemma TallyKept(s: State, a: Action)
    requires s.tally.failures == |s.tally.counted| && Enabled(s, a)
    ensures Apply(s, a).tally.failures == |Apply(s, a).tally.counted|
  {
  }

  // Steps other than those of a flush leave flushes and slots alone.
  lemma FlushFrame(s: State, a: Action)
    requires Enabled(s, a) && !a.FlushTake? && !IsFlushStep(a)
    ensures Apply(s, a).flushes == s.flushes
  {
  }

  lemma StampsStay(s: State, a: Action, t: Token)
    requires Enabled(s, a) && t in s.queue.stamp
    ensures t in Apply(s, a).queue.stamp && Apply(s, a).queue.stamp[t] == s.queue.stamp[t]
  {
  }

  lemma OrderStays(s: State, a: Action, ts: seq<Token>)
    requires Enabled(s, a) && Ordered(s.queue.stamp, ts)
    ensures Ordered(Apply(s, a).queue.stamp, ts)
  {
    forall i | 0 <= i < |ts|
      ensures ts[i] in Apply(s, a).queue.stamp && Apply(s, a).queue.stamp[ts[i]] == s.queue.stamp[ts[i]]
    {
      StampsStay(s, a, ts[i]);
    }
  }

  lemma FlushFrameKept(s: State, a: Action, f: FlushId)
    requires Inv(s) && Enabled(s, a) && f in Apply(s, a).flushes.all
    requires !a.FlushTake? && !IsFlushStep(a)
    ensures FlushInv(Apply(s, a), f)
  {
    FlushFrame(s, a);
    assert FlushInv(s, f);
    OrderStays(s, a, s.flushes.all[f].batch);
  }

  lemma FlushTakeKept(s: State, g: FlushId, f: FlushId)
    requires QueueInv(s) && Enabled(s, FlushTake(g)) && f in Apply(s, FlushTake(g)).flushes.all
    requires f in s.flushes.all ==> FlushInv(s, f)
    requires forall t :: t in s.queue.ops ==> t !in s.flushes.slot
    ensures FlushInv(Apply(s, FlushTake(g)), f)
  {
    if f == g { FlushTakeOwn(s, g); } else { FlushTakeOther(s, g, f); }
  }

  lemma FlushTakeOwn(s: State, g: FlushId)
    requires QueueInv(s) && Enabled(s, FlushTake(g))
    ensures g in Apply(s, FlushTake(g)).flushes.all && FlushInv(Apply(s, FlushTake(g)), g)
  {
    var ops := s.queue.ops;
    OrderedDistinct(s.queue.stamp, ops);
    forall i | 0 <= i < |ops| ensures PositionOf(ops, ops[i]) == i {
      assert ops[PositionOf(ops, ops[i])] == ops[i];
    }
    assert ops[..0] == [];
  }

  lemma FlushTakeOther(s: State, g: FlushId, f: FlushId)
    requires Enabled(s, FlushTake(g)) && f in s.flushes.all && f != g && FlushInv(s, f)
    requires forall t :: t in s.queue.ops ==> t !in s.flushes.slot
    ensures FlushInv(Apply(s, FlushTake(g)), f)
  {
    var s', batch := Apply(s, FlushTake(g)), s.flushes.all[f].batch;
    forall i | 0 <= i < |batch| ensures batch[i] in s'.flushes.slot && s'.flushes.slot[batch[i]] == (f, i) {
      assert batch[i] in s.flushes.slot;
    }
  }

  // A step of flush `a.f` leaves slots, ranks and the other flushes alone, and
  // keeps its own batch.
  lemma FlushStepFrame(s: State, a: Action)
    requires Enabled(s, a) && IsFlushStep(a)
    ensures Apply(s, a).flushes.slot == s.flushes.slot
    ensures Apply(s, a).queue.stamp == s.queue.stamp
  {
  }

  lemma FlushStepBatch(s: State, a: Action)
    requires Enabled(s, a) && IsFlushStep(a)
    ensures a.f in Apply(s, a).flushes.all
    ensures Apply(s, a).flushes.all[a.f].batch == s.flushes.all[a.f].batch
  {
  }

  lemma FlushStepLocal(s: State, a: Action, f: FlushId)
    requires Enabled(s, a) && IsFlushStep(a) && f in s.flushes.all && f != a.f
    ensures f in Apply(s, a).flushes.all
    ensures Apply(s, a).flushes.all[f] == s.flushes.all[f]
  {
  }

  lemma FlushStepSelf(s: State, a: Action)
    requires Enabled(s, a) && IsFlushStep(a) && FlushInv(s, a.f)
    requires TokenInv(s, Current(s.flushes.all[a.f]))
    ensures a.f in Apply(s, a).flushes.all && FlushInv(Apply(s, a), a.f)
  {
    FlushStepFrame(s, a);
    FlushStepBatch(s, a);
  }

  lemma FlushStepKeys(s: State, a: Action)
    requires Enabled(s, a) && IsFlushStep(a)
    ensures Apply(s, a).flushes.all.Keys == s.flushes.all.Keys
  {
  }

  lemma SameFlushSameInv(s: State, s': State, f: FlushId)
    requires f in s.flushes.all && f in s'.flushes.all && FlushInv(s, f)
    requires s'.flushes.all[f] == s.flushes.all[f] && s'.flushes.slot == s.flushes.slot
    requires s'.queue.stamp == s.queue.stamp
    ensures FlushInv(s', f)
  {
  }

  lemma FlushStepOther(s: State, a: Action, f: FlushId)
    requires Inv(s) && Enabled(s, a) && f in Apply(s, a).flushes.all
    requires IsFlushStep(a) && f != a.f
    ensures FlushInv(Apply(s, a), f)
  {
    FlushStepKeys(s, a);
    FlushStepLocal(s, a, f);
    FlushStepFrame(s, a);
    assert FlushInv(s, f);
    SameFlushSameInv(s, Apply(s, a), f);
  }

  lemma FlushKept(s: State, a: Action, f: FlushId)
    requires Inv(s) && Enabled(s, a) && f in Apply(s, a).flushes.all
    ensures FlushInv(Apply(s, a), f)
  {
    if a.FlushTake? {
      forall t | t in s.queue.ops ensures t !in s.flushes.slot {
        assert TokenInv(s, t);
      }
      FlushTakeKept(s, a.f, f);
    } else if !IsFlushStep(a) {
      FlushFrameKept(s, a, f);
    } else if f == a.f {
      FlushStepSelf(s, a);
    } else {
      FlushStepOther(s, a, f);
    }
  }

  lemma SlotKept(s: State, a: Action, t: Token)
    requires Inv(s) && Enabled(s, a) && t in Apply(s, a).flushes.slot
    ensures SlotInv(Apply(s, a), t)
  {
    if a.FlushTake? {
      if t in s.flushes.slot { assert SlotInv(s, t) && TokenInv(s, t); }
    } else if IsFlushStep(a) {
      FlushStepFrame(s, a);
      assert SlotInv(s, t);
      var f := s.flushes.slot[t].0;
      if f == a.f { FlushStepBatch(s, a); } else { FlushStepLocal(s, a, f); }
    } else {
      FlushFrame(s, a);
      assert SlotInv(s, t);
    }
  }

  // The invariant survives every step of every thread.
  lemma StepKeepsInv(s: State, a: Action)
    requires Inv(s) && Enabled(s, a)
    ensures Inv(Apply(s, a))
  {
    var s' := Apply(s, a);
    QueueKept(s, a);
    TallyKept(s, a);
    forall t ensures TokenInv(s', t) { TokenKept(s, a, t); }
    forall f | f in s'.flushes.all ensures FlushInv(s', f) { FlushKept(s, a, f); }
    forall t | t in s'.flushes.slot ensures SlotInv(s', t) { SlotKept(s, a, t); }
  }

  lemma InitialInv(cap: int, reviewer: bool)
    ensures Inv(Initial(cap, reviewer))
  {
  }

  lemma {:induction false} RunKeepsInv(states: seq<State>, actions: seq<Action>, i: nat)
    requires IsRun(states, actions) && i < |states|
    ensures Inv(states[i])
  {
    if i == 0 {
      InitialInv(states[0].queue.cap, states[0].reviewer);
    } else {
      RunKeepsInv(states, actions, i - 1);
      StepKeepsInv(states[i - 1], actions[i - 1]);
    }
  }

  // The value that the last of the first i steps to edit the cap gave it.
  function LatestCap(actions: seq<Action>, i: nat, start: int): int
    requires i <= |actions|
  {
    if i == 0 then start
    else if actions[i - 1].SetCap? then actions[i - 1].n
    else LatestCap(actions, i - 1, start)
  }

  lemma CapSet(s: State, a: Action)
    requires Enabled(s, a)
    ensures Apply(s, a).queue.cap == if a.SetCap? then a.n else s.queue.cap
  {
  }

  // The cap in force is the one set last.
  lemma {:induction false} CapIsLatest(states: seq<State>, actions: seq<Action>, i: nat)
    requires IsRun(states, actions) && i < |states|
    ensures states[i].queue.cap == LatestCap(actions, i, states[0].queue.cap)
  {
    if i > 0 {
      CapIsLatest(states, actions, i - 1);
      assert Enabled(states[i - 1], actions[i - 1]) && states[i] == Apply(states[i - 1], actions[i - 1]);
      CapSet(states[i - 1], actions[i - 1]);
    }
  }

  // ---------------------------------------------------------------- cancelled timers

  // The timer has not run its callback yet.
  predicate StillToExpire(s: State, t: Token) { TimerAt(s, t, Created) || TimerAt(s, t, Waiting) }

  // The step tells the timer of `t` to cancel.
  predicate Silences(s: State, a: Action, t: Token) {
    a == CancelTimer(t) || (a.FlushSilence? && Enabled(s, a) && Current(s.flushes.all[a.f]) == t)
  }

  lemma SilencedStep(s: State, a: Action, t: Token)
    requires Enabled(s, a) && t in s.queue.stamp && StillToExpire(s, t)
    requires t in s.silenced || Silences(s, a, t)
    ensures t in Apply(s, a).queue.stamp && t in Apply(s, a).silenced && StillToExpire(Apply(s, a), t)
  {
  }

  // A timer that is told to cancel before its delay has elapsed never gets to pop its op.
  lemma {:induction false} CancelledTimerStaysQuiet(states: seq<State>, actions: seq<Action>, i: nat, j: nat, t: Token)
    requires IsRun(states, actions) && i < j < |states|
    requires Silences(states[i], actions[i], t) && StillToExpire(states[i], t)
    ensures t in states[j].queue.stamp && t in states[j].silenced && StillToExpire(states[j], t)
  {
    assert Enabled(states[j - 1], actions[j - 1]) && states[j] == Apply(states[j - 1], actions[j - 1]);
    if i + 1 < j {
      CancelledTimerStaysQuiet(states, actions, i, j - 1, t);
    } else {
      RunKeepsInv(states, actions, i);
      assert TokenInv(states[i], t);
    }
    SilencedStep(states[j - 1], actions[j - 1], t);
  }

  // ---------------------------------------------------------------- what holds of whole runs

  // Step `a` calls the callable of op `t`.
  predicate Calls(s: State, a: Action, t: Token)
    requires Enabled(s, a)
  {
    a == FireCall(t) || (a.FlushCall? && Current(s.flushes.all[a.f]) == t)
  }

  // Step `a` is a cancel() that will return True for `t`.
  predicate Cancels(s: State, a: Action, t: Token) {
    a == CancelPop(t) && t in s.queue.ops
  }

  lemma StepGrowsHistory(s: State, a: Action, t: Token)
    requires Enabled(s, a)
    ensures Apply(s, a).started[t] == s.started[t] + One(Calls(s, a, t))
    ensures Apply(s, a).cancelled[t] == s.cancelled[t] + One(Cancels(s, a, t))
  {
  }

  lemma StepNeverLosesHistory(states: seq<State>, actions: seq<Action>, t: Token, i: nat)
    requires IsRun(states, actions) && i < |actions|
    ensures states[i].started[t] <= states[i + 1].started[t]
    ensures states[i].cancelled[t] <= states[i + 1].cancelled[t]
  {
    StepGrowsHistory(states[i], actions[i], t);
  }

  lemma {:induction false} HistoryGrows(states: seq<State>, actions: seq<Action>, t: Token, i: nat, j: nat)
    requires IsRun(states, actions) && i <= j < |states|
    ensures states[i].started[t] <= states[j].started[t]
    ensures states[i].cancelled[t] <= states[j].cancelled[t]
  {
    if i < j {
      HistoryGrows(states, actions, t, i, j - 1);
      StepNeverLosesHistory(states, actions, t, j - 1);
    }
  }

  // No op's callable is started twice, whichever threads race for it.
  lemma CallableStartsOnce(states: seq<State>, actions: seq<Action>, t: Token, i: nat, j: nat)
    requires IsRun(states, actions) && i < j < |actions|
    requires Calls(states[i], actions[i], t)
    ensures !Calls(states[j], actions[j], t)
  {
    StepGrowsHistory(states[i], actions[i], t);
    HistoryGrows(states, actions, t, i + 1, j);
    StepGrowsHistory(states[j], actions[j], t);
    RunKeepsInv(states, actions, j + 1);
    assert TokenInv(states[j + 1], t);
  }

  // Once cancel() got an op, its callable has not run and never will.
  lemma CancelIsFinal(states: seq<State>, actions: seq<Action>, t: Token, i: nat, j: nat)
    requires IsRun(states, actions) && i < |actions| && j < |actions|
    requires Cancels(states[i], actions[i], t)
    ensures !Calls(states[j], actions[j], t)
    ensures i != j ==> !Cancels(states[j], actions[j], t)
  {
    var last := |actions|;
    RunKeepsInv(states, actions, last);
    assert TokenInv(states[last], t);
    StepGrowsHistory(states[i], actions[i], t);
    StepGrowsHistory(states[j], actions[j], t);
    HistoryGrows(states, actions, t, i + 1, last);
    HistoryGrows(states, actions, t, j + 1, last);
    if i < j { HistoryGrows(states, actions, t, i + 1, j); }
    if j < i { HistoryGrows(states, actions, t, j + 1, i); }
  }

  // Every op ever inserted is in exactly one of the four places, and a place never
  // holds it twice.
  lemma Conservation(states: seq<State>, actions: seq<Action>, i: nat, t: Token)
    requires IsRun(states, actions) && i < |states|
    ensures var s := states[i];
            Owners(s, t) == (if t in s.queue.stamp then 1 else 0) && Distinct(s.queue.ops)
  {
    RunKeepsInv(states, actions, i);
    assert TokenInv(states[i], t);
    OrderedDistinct(states[i].queue.stamp, states[i].queue.ops);
  }

  // No two places of any flushes' snapshots hold the same op.
  lemma FlushesAreDisjoint(states: seq<State>, actions: seq<Action>, i: nat, f: FlushId, g: FlushId, m: nat, n: nat)
    requires IsRun(states, actions) && i < |states|
    requires f in states[i].flushes.all && g in states[i].flushes.all
    requires m < |states[i].flushes.all[f].batch| && n < |states[i].flushes.all[g].batch|
    requires states[i].flushes.all[f].batch[m] == states[i].flushes.all[g].batch[n]
    ensures f == g && m == n
  {
    RunKeepsInv(states, actions, i);
    assert FlushInv(states[i], f) && FlushInv(states[i], g);
  }

  // The double-fire guard of `fire_all_now` never skips an op, and no op still in
  // the queue is marked as fired.
  lemma GuardNeverTaken(states: seq<State>, actions: seq<Action>, i: nat)
    requires IsRun(states, actions) && i < |states|
    ensures forall f :: FlushAt(states[i], f, Guarding) ==>
              Current(states[i].flushes.all[f]) !in states[i].fired
    ensures forall t :: t in states[i].queue.ops ==> t !in states[i].fired
  {
    RunKeepsInv(states, actions, i);
    var s := states[i];
    forall f | FlushAt(s, f, Guarding) ensures Current(s.flushes.all[f]) !in s.fired {
      assert FlushInv(s, f);
      assert TokenInv(s, Current(s.flushes.all[f]));
    }
    forall t | t in s.queue.ops ensures t !in s.fired {
      assert TokenInv(s, t);
    }
  }

  lemma BatchStays(s: State, a: Action, f: FlushId)
    requires Inv(s) && Enabled(s, a) && f in s.flushes.all
    ensures f in Apply(s, a).flushes.all
    ensures Apply(s, a).flushes.all[f].batch == s.flushes.all[f].batch
  {
    if IsFlushStep(a) {
      if f == a.f { FlushStepBatch(s, a); } else { FlushStepLocal(s, a, f); }
    } else if !a.FlushTake? {
      FlushFrame(s, a);
    }
  }

  lemma BatchStaysInRun(states: seq<State>, actions: seq<Action>, f: FlushId, i: nat)
    requires IsRun(states, actions) && i < |actions| && f in states[i].flushes.all
    ensures f in states[i + 1].flushes.all
    ensures states[i + 1].flushes.all[f].batch == states[i].flushes.all[f].batch
  {
    RunKeepsInv(states, actions, i);
    BatchStays(states[i], actions[i], f);
  }

  lemma {:induction false} BatchIsSnapshot(states: seq<State>, actions: seq<Action>, f: FlushId, i: nat, j: nat)
    requires IsRun(states, actions) && i < j < |states| && actions[i] == FlushTake(f)
    ensures f in states[j].flushes.all && states[j].flushes.all[f].batch == states[i].queue.ops
  {
    if i + 1 < j {
      BatchIsSnapshot(states, actions, f, i, j - 1);
      BatchStaysInRun(states, actions, f, j - 1);
    }
  }

  // A flush takes the whole queue, oldest insertion first, and calls every op of its
  // snapshot once, in that order, whatever the calls raise: what it has called is
  // always a prefix of the snapshot, and all of it when the flush is over.
  lemma FlushCallsWholeSnapshot(states: seq<State>, actions: seq<Action>, f: FlushId, i: nat, j: nat)
    requires IsRun(states, actions) && i < j < |states| && actions[i] == FlushTake(f)
    ensures f in states[j].flushes.all
    ensures states[j].flushes.all[f].called <= states[i].queue.ops
    ensures states[j].flushes.all[f].next == |states[i].queue.ops| ==>
              states[j].flushes.all[f].called == states[i].queue.ops
    ensures Ordered(states[i].queue.stamp, states[i].queue.ops)
  {
    RunKeepsInv(states, actions, i);
    RunKeepsInv(states, actions, j);
    BatchIsSnapshot(states, actions, f, i, j);
    assert FlushInv(states[j], f);
  }

  lemma CapStep(s: State, a: Action)
    requires Enabled(s, a)
    ensures Apply(s, a).queue.maxCap in {s.queue.maxCap, Apply(s, a).queue.cap}
  {
    if !IsQueueStep(a) { QueueFrame(s, a); }
  }

  lemma {:induction false} MaxCapWasSeen(states: seq<State>, actions: seq<Action>, i: nat)
    returns (k: nat)
    requires IsRun(states, actions) && i < |states|
    ensures k <= i && states[k].queue.cap == states[i].queue.maxCap
  {
    if states[i].queue.maxCap == states[i].queue.cap {
      k := i;
    } else {
      CapStep(states[i - 1], actions[i - 1]);
      k := MaxCapWasSeen(states, actions, i - 1);
    }
  }

  // The cap may be edited at any time; the depth stays within the largest one in
  // force so far (within 0 if none was positive).
  lemma DepthBound(states: seq<State>, actions: seq<Action>, i: nat)
    requires IsRun(states, actions) && i < |states|
    ensures exists k :: 0 <= k <= i && |states[i].queue.ops| <= Max(0, states[k].queue.cap)
  {
    RunKeepsInv(states, actions, i);
    var k := MaxCapWasSeen(states, actions, i);
    assert |states[i].queue.ops| <= Max(0, states[k].queue.cap);
  }

  // How many of these steps are a callable raising something other than NotFound.
  function Failures(actions: seq<Action>): nat {
    if actions == [] then 0
    else Failures(actions[..|actions| - 1]) +
         One(IsFailure(actions[|actions| - 1]))
  }

  predicate IsFailure(a: Action) {
    (a.FireReturn? || a.FlushReturn?) && a.o == Raised
  }

  lemma StepRaises(s: State, a: Action)
    requires Enabled(s, a)
    ensures |Apply(s, a).tally.raised| == |s.tally.raised| + One(IsFailure(a))
  {
  }

  lemma {:induction false} RaisedCount(states: seq<State>, actions: seq<Action>, i: nat)
    requires IsRun(states, actions) && i < |states|
    ensures |states[i].tally.raised| == Failures(actions[..i])
  {
    if i > 0 {
      RaisedCount(states, actions, i - 1);
      StepRaises(states[i - 1], actions[i - 1]);
      assert actions[..i][..i - 1] == actions[..i - 1];
    }
  }

  lemma SubBagSize(a: multiset<Token>, b: multiset<Token>)
    requires forall t :: a[t] <= b[t]
    ensures |a| <= |b|
    ensures (forall t :: a[t] == b[t]) ==> |a| == |b|
  {
    assert b == a + (b - a);
  }

  // The failure counter never runs ahead of the failed calls, and equals their number
  // whenever no thread stands between a raised call and its count.
  lemma FailureCounter(states: seq<State>, actions: seq<Action>, i: nat)
    requires IsRun(states, actions) && i < |states|
    ensures states[i].tally.failures <= Failures(actions[..i])
    ensures (forall t :: !Awaiting(states[i], t)) ==> states[i].tally.failures == Failures(actions[..i])
  {
    RunKeepsInv(states, actions, i);
    RaisedCount(states, actions, i);
    var s := states[i];
    forall t ensures s.tally.counted[t] <= s.tally.raised[t]
                  && (!Awaiting(s, t) ==> s.tally.counted[t] == s.tally.raised[t])
    {
      assert TokenInv(s, t);
    }
    SubBagSize(s.tally.counted, s.tally.raised);
  }

  // A timer calls its op only after reading a PROFILE other than reviewer.
  lemma {:induction false} TimerCallWasGated(states: seq<State>, actions: seq<Action>, t: Token, j: nat)
    returns (k: nat)
    requires IsRun(states, actions) && j < |states| && TimerAt(states[j], t, Calling)
    ensures k < j && actions[k] == FireGate(t) && !states[k].reviewer
    ensures forall m :: k < m <= j ==> TimerAt(states[m], t, Calling)
  {
    BeforeCalling(states, actions, t, j);
    if TimerAt(states[j - 1], t, Calling) {
      k := TimerCallWasGated(states, actions, t, j - 1);
    } else {
      k := j - 1;
    }
  }

  lemma TimerWasThere(s: State, a: Action, t: Token)
    requires Enabled(s, a) && TimerAt(Apply(s, a), t, Calling)
    ensures TimerAt(s, t, Calling) || (a == FireGate(t) && !s.reviewer)
  {
  }

  lemma BeforeCalling(states: seq<State>, actions: seq<Action>, t: Token, j: nat)
    requires IsRun(states, actions) && j < |states| && TimerAt(states[j], t, Calling)
    ensures j > 0
    ensures TimerAt(states[j - 1], t, Calling) || (actions[j - 1] == FireGate(t) && !states[j - 1].reviewer)
  {
    assert j > 0;
    assert Enabled(states[j - 1], actions[j - 1]);
    TimerWasThere(states[j - 1], actions[j - 1], t);
  }

  // PROFILE is read outside the lock and before the call: a timer can still call its
  // op in reviewer mode, but only if it read PROFILE before the switch.
  lemma ReviewerStopsTimers(states: seq<State>, actions: seq<Action>, t: Token, i: nat, j: nat)
    requires IsRun(states, actions) && i <= j < |actions| && actions[j] == FireCall(t)
    requires forall m :: i <= m <= j ==> states[m].reviewer
    ensures exists k :: 0 <= k < i && actions[k] == FireGate(t) && !states[k].reviewer
  {
    var k := TimerCallWasGated(states, actions, t, j);
    assert actions[k] == FireGate(t) && !states[k].reviewer;
  }

  lemma Extend(states: seq<State>, actions: seq<Action>, a: Action)
    returns (states': seq<State>, actions': seq<Action>)
    requires IsRun(states, actions) && Enabled(states[|actions|], a)
    ensures actions' == actions + [a] && states' == states + [Apply(states[|actions|], a)]
    ensures IsRun(states', actions')
  {
    actions', states' := actions + [a], states + [Apply(states[|actions|], a)];
  }

  lemma ReachQueued() returns (states: seq<State>, actions: seq<Action>)
    ensures IsRun(states, actions) && |actions| == 1
    ensures var s := states[1];
            && TimerAt(s, 0, Created) && s.queue.ops == [0] && !s.reviewer
            && s.silenced == {} && s.fired == {} && s.flushes.all == map[]
  {
    states, actions := [Initial(1, false)], [];
    states, actions := Extend(states, actions, Enqueue(0));
  }

  lemma ReachPopping() returns (states: seq<State>, actions: seq<Action>)
    ensures IsRun(states, actions)
    ensures var s := states[|actions|]; TimerAt(s, 0, Popping) && 0 in s.queue.ops && !s.reviewer
  {
    states, actions := ReachQueued();
    states, actions := Extend(states, actions, StartTimer(0));
    states, actions := Extend(states, actions, Expire(0));
  }

  // A run that leaves one timer between its PROFILE read and its call.
  lemma ReachCalling() returns (states: seq<State>, actions: seq<Action>)
    ensures IsRun(states, actions) && TimerAt(states[|actions|], 0, Calling)
  {
    states, actions := ReachPopping();
    states, actions := Extend(states, actions, FirePop(0));
    states, actions := Extend(states, actions, FireMark(0));
    states, actions := Extend(states, actions, FireGate(0));
  }

  // ... and it can: the switch falls between the read and the call.
  lemma TimerCanCallInReviewerMode() returns (states: seq<State>, actions: seq<Action>)
    ensures IsRun(states, actions)
    ensures exists i :: 0 <= i < |actions| && actions[i] == FireCall(0) && states[i].reviewer
  {
    states, actions := ReachCalling();
    states, actions := Extend(states, actions, SetProfile(true));
    var i := |actions|;
    states, actions := Extend(states, actions, FireCall(0));
    assert actions[i] == FireCall(0) && states[i].reviewer;
  }

  lemma ReachFullQueue() returns (states: seq<State>, actions: seq<Action>)
    ensures IsRun(states, actions) && |actions| == 2
    ensures var s := states[2]; s.reviewer && s.queue.ops == [0] && s.fired == {} && s.flushes.all == map[]
  {
    states, actions := ReachQueued();
    states, actions := Extend(states, actions, SetProfile(true));
  }

  lemma ReachFlush() returns (states: seq<State>, actions: seq<Action>)
    ensures IsRun(states, actions) && |actions| == 3
    ensures actions[2] == FlushTake(0) && states[2].reviewer
    ensures states[3].reviewer && 0 !in states[3].fired
    ensures FlushAt(states[3], 0, Silencing) && Current(states[3].flushes.all[0]) == 0
  {
    states, actions := ReachFullQueue();
    states, actions := Extend(states, actions, FlushTake(0));
  }

  lemma ReachSetting() returns (states: seq<State>, actions: seq<Action>)
    ensures IsRun(states, actions) && |actions| == 5
    ensures actions[2] == FlushTake(0) && states[2].reviewer && states[5].reviewer
    ensures FlushAt(states[5], 0, Setting) && Current(states[5].flushes.all[0]) == 0
  {
    states, actions := ReachFlush();
    states, actions := Extend(states, actions, FlushSilence(0));
    states, actions := Extend(states, actions, FlushGuard(0));
  }

  lemma ReachFlushCall() returns (states: seq<State>, actions: seq<Action>)
    ensures IsRun(states, actions) && |actions| == 6
    ensures actions[2] == FlushTake(0) && states[2].reviewer && states[6].reviewer
    ensures FlushAt(states[6], 0, Firing) && Current(states[6].flushes.all[0]) == 0
  {
    states, actions := ReachSetting();
    states, actions := Extend(states, actions, FlushSet(0));
  }

  // A flush never reads PROFILE: it takes the queue and calls an op in reviewer mode.
  lemma FlushCallsInReviewerMode() returns (states: seq<State>, actions: seq<Action>)
    ensures IsRun(states, actions) && |actions| == 7
    ensures actions[2] == FlushTake(0) && states[2].reviewer
    ensures Calls(states[6], actions[6], 0) && states[6].reviewer
  {
    states, actions := ReachFlushCall();
    states, actions := Extend(states, actions, FlushCall(0));
  }
}
