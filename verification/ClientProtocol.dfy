/** The Docker client singleton of skiff/docker_client.py as a transition system.

    Any number of threads stand anywhere in `get_client`, `invalidate_client` comes at any
    time, and the clock moves freely.  A `with _client_lock` block is one step; the ping,
    the close and the build are steps of their own.  A client is the number of its build. */
module ClientProtocol {
  import opened Text

  type Client = nat
  type Thread = nat

  datatype Knobs = Knobs(ttl: int, backoff: int)  // DOCKER_PING_TTL, DOCKER_BACKOFF

  // The three module globals.
  datatype Cell = Cell(client: Option<Client>, failedAt: int, lastPing: int)

  datatype Route = Fresh | Pinged | Published | LostRace

  datatype Pc =
    | Idle
    | Missed                          // phase 1 found nothing fresh
    | Pinging(c: Client)
    | Recording(c: Client, at: int)   // the ping succeeded at time `at`
    | Discarding(c: Client)           // the ping failed
    | Clearing(c: Client)             // the stale client is closed
    | Building
    | Publishing(c: Client, at: int)  // built, and pinged by the build at time `at`
    | Failing                         // the build failed
    | Returned(c: Client, route: Route)
    | Failed

  // History: every client built, closed or ever published, every successful ping, the
  // ping behind `_client_last_ping`, and the open clients dropped by a failed build.
  datatype World = World(
    built: set<Client>,
    closed: set<Client>,
    published: set<Client>,
    orphaned: set<Client>,
    pings: set<(Client, int)>,
    record: Option<(Client, int)>)

  datatype State = State(knobs: Knobs, now: int, cell: Cell, threads: map<Thread, Pc>, world: World)

  datatype Action =
    | Enter(t: Thread)
    | CheckCache(t: Thread)
    | ReadCandidate(t: Thread)
    | PingSucceeds(t: Thread)
    | PingFails(t: Thread)
    | Record(t: Thread)
    | CloseStale(t: Thread)
    | Clear(t: Thread)
    | BuildSucceeds(t: Thread, c: Client)
    | BuildFails(t: Thread)
    | Publish(t: Thread)
    | RecordFailure(t: Thread)
    | Invalidate
    | Tick(d: nat)

  predicate Enabled(s: State, a: Action) {
    match a
    case Enter(t) => t !in s.threads
    case CheckCache(t) => t in s.threads && s.threads[t].Idle?
    case ReadCandidate(t) => t in s.threads && s.threads[t].Missed?
    case PingSucceeds(t) => t in s.threads && s.threads[t].Pinging?
    case PingFails(t) => t in s.threads && s.threads[t].Pinging?
    case Record(t) => t in s.threads && s.threads[t].Recording?
    case CloseStale(t) => t in s.threads && s.threads[t].Discarding?
    case Clear(t) => t in s.threads && s.threads[t].Clearing?
    case BuildSucceeds(t, c) => t in s.threads && s.threads[t].Building? && c !in s.world.built
    case BuildFails(t) => t in s.threads && s.threads[t].Building?
    case Publish(t) => t in s.threads && s.threads[t].Publishing?
    case RecordFailure(t) => t in s.threads && s.threads[t].Failing?
    case Invalidate => true
    case Tick(_) => true
  }

  function Move(s: State, t: Thread, pc: Pc): State {
    s.(threads := s.threads[t := pc])
  }

  // The current client, if any, that is still open.
  function OpenCurrent(s: State): set<Client> {
    if s.cell.client.Some? then {s.cell.client.value} - s.world.closed else {}
  }

  function Apply(s: State, a: Action): State
    requires Enabled(s, a)
  {
    var cell, w := s.cell, s.world;
    match a
    case Enter(t) => Move(s, t, Idle)
    case CheckCache(t) =>
      if cell.client.None?
      then Move(s, t, if s.now - cell.failedAt < s.knobs.backoff then Failed else Missed)
      else Move(s, t, if s.now - cell.lastPing < s.knobs.ttl then Returned(cell.client.value, Fresh) else Missed)
    case ReadCandidate(t) =>
      Move(s, t, if cell.client.Some? then Pinging(cell.client.value) else Building)
    case PingSucceeds(t) =>
      var c := s.threads[t].c;
      Move(s, t, Recording(c, s.now)).(world := w.(pings := w.pings + {(c, s.now)}))
    case PingFails(t) => Move(s, t, Discarding(s.threads[t].c))
    case Record(t) =>
      var Recording(c, at) := s.threads[t];
      if cell.client == Some(c)
      then Move(s, t, Returned(c, Pinged))
             .(cell := cell.(lastPing := s.now), world := w.(record := Some((c, at))))
      else Move(s, t, Returned(c, Pinged))
    case CloseStale(t) =>
      var c := s.threads[t].c;
      Move(s, t, Clearing(c)).(world := w.(closed := w.closed + {c}))
    case Clear(t) =>
      if cell.client == Some(s.threads[t].c)
      then Move(s, t, Building).(cell := cell.(client := None))
      else Move(s, t, Building)
    case BuildSucceeds(t, c) =>
      Move(s, t, Publishing(c, s.now))
        .(world := w.(built := w.built + {c}, pings := w.pings + {(c, s.now)}))
    case BuildFails(t) => Move(s, t, Failing)
    case Publish(t) =>
      var Publishing(c, at) := s.threads[t];
      if cell.client.None?
      then Move(s, t, Returned(c, Published))
             .(cell := cell.(client := Some(c), lastPing := s.now),
               world := w.(published := w.published + {c}, record := Some((c, at))))
      else Move(s, t, Returned(cell.client.value, LostRace)).(world := w.(closed := w.closed + {c}))
    case RecordFailure(t) =>
      Move(s, t, Failed)
        .(cell := cell.(client := None, failedAt := s.now),
          world := w.(orphaned := w.orphaned + OpenCurrent(s)))
    case Invalidate =>
      s.(cell := cell.(client := None, lastPing := 0),
         world := w.(closed := w.closed + OpenCurrent(s), record := None))
    case Tick(d) => s.(now := s.now + d)
  }

  function Initial(knobs: Knobs, now: int): State {
    State(knobs, now, Cell(None, 0, 0), map[], World({}, {}, {}, {}, {}, None))
  }

  ghost predicate IsRun(states: seq<State>, actions: seq<Action>) {
    && |states| == |actions| + 1
    && states[0] == Initial(states[0].knobs, states[0].now)
    && forall i {:trigger actions[i]} :: 0 <= i < |actions| ==>
         Enabled(states[i], actions[i]) && states[i + 1] == Apply(states[i], actions[i])
  }

  // ---------------------------------------------------------------- invariant

  predicate InHand(s: State, t: Thread, c: Client) {
    t in s.threads && s.threads[t].Publishing? && s.threads[t].c == c
  }

  // `c` is accounted for: about to be published, current, closed, or dropped while open.
  ghost predicate Accounted(s: State, c: Client) {
    || (exists t :: InHand(s, t, c))
    || s.cell.client == Some(c)
    || c in s.world.closed
    || c in s.world.orphaned
  }

  ghost predicate CellInv(s: State) {
    s.cell.client.Some? ==>
      && s.cell.client.value in s.world.published
      && s.world.record.Some?
      && s.world.record.value.0 == s.cell.client.value
      && s.world.record.value in s.world.pings
      && s.world.record.value.1 <= s.cell.lastPing <= s.now
  }

  ghost predicate ThreadInv(s: State, t: Thread)
    requires t in s.threads
  {
    match s.threads[t]
    case Pinging(c) => c in s.world.published
    case Recording(c, at) => c in s.world.published && (c, at) in s.world.pings && at <= s.now
    case Discarding(c) => c in s.world.published
    case Clearing(c) => c in s.world.published && c in s.world.closed
    case Publishing(c, at) =>
      && c in s.world.built && c !in s.world.published && c !in s.world.closed
      && (c, at) in s.world.pings && at <= s.now
      && (forall u :: InHand(s, u, c) ==> u == t)
    case _ => true
  }

  ghost predicate Inv(s: State) {
    && CellInv(s)
    && s.world.published <= s.world.built
    && s.world.closed <= s.world.built
    && (forall t :: t in s.threads ==> ThreadInv(s, t))
    && (forall c :: c in s.world.built ==> Accounted(s, c))
  }

  // ---------------------------------------------------------------- every step keeps it

  lemma CellStep(s: State, a: Action)
    requires Inv(s) && Enabled(s, a)
    ensures CellInv(Apply(s, a))
    ensures Apply(s, a).world.published <= Apply(s, a).world.built
    ensures Apply(s, a).world.closed <= Apply(s, a).world.built
  {
    match a
    case Record(t) => assert ThreadInv(s, t);
    case Publish(t) => assert ThreadInv(s, t);
    case CloseStale(t) => assert ThreadInv(s, t);
    case _ =>
  }

  predicate ActsOnThread(a: Action) {
    !a.Invalidate? && !a.Tick?
  }

  // A client waiting to be published is untouched by the other threads.
  lemma HandStep(s: State, a: Action, t: Thread)
    requires Inv(s) && Enabled(s, a) && t in s.threads && s.threads[t].Publishing?
    requires ActsOnThread(a) ==> a.t != t
    ensures Apply(s, a).threads[t] == s.threads[t] && ThreadInv(Apply(s, a), t)
  {
    var c := s.threads[t].c;
    assert ThreadInv(s, t);
    if ActsOnThread(a) && a.t in s.threads {
      assert ThreadInv(s, a.t);
      assert !InHand(s, a.t, c);
    }
    forall u | InHand(Apply(s, a), u, c) ensures u == t {
      assert InHand(s, u, c);
    }
  }

  lemma BuiltStep(s: State, t: Thread, c: Client)
    requires Inv(s) && Enabled(s, BuildSucceeds(t, c))
    ensures ThreadInv(Apply(s, BuildSucceeds(t, c)), t)
  {
    forall u | u in s.threads && s.threads[u].Publishing? ensures s.threads[u].c != c {
      assert ThreadInv(s, u);
    }
  }

  lemma ThreadStep(s: State, a: Action, t: Thread)
    requires Inv(s) && Enabled(s, a) && t in Apply(s, a).threads
    ensures ThreadInv(Apply(s, a), t)
  {
    if t in s.threads {
      assert ThreadInv(s, t);
      if s.threads[t].Publishing? && (ActsOnThread(a) ==> a.t != t) {
        HandStep(s, a, t);
      } else if a.BuildSucceeds? && a.t == t {
        BuiltStep(s, t, a.c);
      }
    }
  }

  lemma AccountedStep(s: State, a: Action, c: Client)
    requires Inv(s) && Enabled(s, a) && c in Apply(s, a).world.built
    ensures Accounted(Apply(s, a), c)
  {
    if a.BuildSucceeds? && a.c == c {
      assert InHand(Apply(s, a), a.t, c);
    } else if t :| InHand(s, t, c) {
      if a != Publish(t) { assert InHand(Apply(s, a), t, c); }
    } else if a.Clear? && s.threads[a.t].c == c {
      assert ThreadInv(s, a.t);
    }
  }

  lemma StepKeepsInv(s: State, a: Action)
    requires Inv(s) && Enabled(s, a)
    ensures Inv(Apply(s, a))
  {
    var s' := Apply(s, a);
    CellStep(s, a);
    forall t | t in s'.threads ensures ThreadInv(s', t) { ThreadStep(s, a, t); }
    forall c | c in s'.world.built ensures Accounted(s', c) { AccountedStep(s, a, c); }
  }

  lemma {:induction false} RunKeepsInv(states: seq<State>, actions: seq<Action>, i: nat)
    requires IsRun(states, actions) && i < |states|
    ensures Inv(states[i])
  {
    if i > 0 {
      RunKeepsInv(states, actions, i - 1);
      StepKeepsInv(states[i - 1], actions[i - 1]);
    }
  }

  // ---------------------------------------------------------------- what holds of whole runs

  // A client is installed only where there is none.
  lemma {:induction false} NoDirectReplacement(states: seq<State>, actions: seq<Action>, i: nat, j: nat)
    requires IsRun(states, actions) && i < j < |states|
    requires states[i].cell.client.Some? && states[j].cell.client.Some?
    requires states[i].cell.client != states[j].cell.client
    ensures exists k :: i < k < j && states[k].cell.client.None?
  {
    if states[j - 1].cell.client.None? {
    } else if i < j - 1 {
      KeptOrCleared(states[j - 1], actions[j - 1]);
      NoDirectReplacement(states, actions, i, j - 1);
    } else {
      KeptOrCleared(states[i], actions[i]);
    }
  }

  lemma KeptOrCleared(s: State, a: Action)
    requires Enabled(s, a) && s.cell.client.Some?
    ensures Apply(s, a).cell.client in {s.cell.client, None}
  {
  }

  lemma {:induction false} PublishedStays(states: seq<State>, actions: seq<Action>, c: Client, i: nat, j: nat)
    requires IsRun(states, actions) && i <= j < |states| && c in states[i].world.published
    ensures c in states[j].world.published
  {
    if i < j {
      PublishedStays(states, actions, c, i, j - 1);
      assert Enabled(states[j - 1], actions[j - 1]);
    }
  }

  // No client is installed twice.
  lemma InstalledOnce(states: seq<State>, actions: seq<Action>, i: nat, j: nat)
    requires IsRun(states, actions) && i < j < |actions|
    requires actions[i].Publish? && states[i].cell.client.None?
    requires actions[j].Publish? && states[j].cell.client.None?
    ensures states[i + 1].cell.client.Some? && states[j + 1].cell.client.Some?
    ensures states[i + 1].cell.client != states[j + 1].cell.client
  {
    var c := states[i].threads[actions[i].t].c;
    PublishedStays(states, actions, c, i + 1, j);
    RunKeepsInv(states, actions, j);
    assert ThreadInv(states[j], actions[j].t);
  }

  // The thread that loses the publish race closes the client it built, leaves the
  // installed one alone and returns that one; the client it closes was never current.
  lemma LoserClosesItsOwn(states: seq<State>, actions: seq<Action>, i: nat)
    requires IsRun(states, actions) && i < |actions|
    requires actions[i].Publish? && states[i].cell.client.Some?
    ensures var t, s, s' := actions[i].t, states[i], states[i + 1];
            && s'.cell == s.cell
            && s'.threads[t] == Returned(s.cell.client.value, LostRace)
            && s'.world.closed == s.world.closed + {s.threads[t].c}
            && s.threads[t].c !in s'.world.published
            && s.threads[t].c != s.cell.client.value
  {
    RunKeepsInv(states, actions, i);
    assert ThreadInv(states[i], actions[i].t);
  }

  // Whenever a client is installed, the recorded ping time was written after a
  // successful ping of that same client.
  lemma RecordedPingIsOfCurrent(states: seq<State>, actions: seq<Action>, i: nat)
    requires IsRun(states, actions) && i < |states| && states[i].cell.client.Some?
    ensures exists at :: (states[i].cell.client.value, at) in states[i].world.pings
                      && at <= states[i].cell.lastPing <= states[i].now
  {
    RunKeepsInv(states, actions, i);
  }

  predicate RecordsPing(s: State, a: Action, c: Client)
    requires Enabled(s, a)
  {
    && (a.Record? || a.Publish?)
    && s.threads[a.t].c == c
    && Apply(s, a).cell.client == Some(c)
  }

  lemma {:induction false} LastPingWasRecorded(states: seq<State>, actions: seq<Action>, c: Client, j: nat)
    returns (k: nat)
    requires IsRun(states, actions) && j < |states| && states[j].cell.client == Some(c)
    ensures k < j && RecordsPing(states[k], actions[k], c) && states[k].now == states[j].cell.lastPing
  {
    var s, a := states[j - 1], actions[j - 1];
    RunKeepsInv(states, actions, j - 1);
    if RecordsPing(s, a, c) {
      k := j - 1;
      assert ThreadInv(s, a.t);
    } else {
      CellUntouched(s, a, c);
      k := LastPingWasRecorded(states, actions, c, j - 1);
    }
  }

  lemma CellUntouched(s: State, a: Action, c: Client)
    requires Inv(s) && Enabled(s, a) && Apply(s, a).cell.client == Some(c) && !RecordsPing(s, a, c)
    ensures s.cell.client == Some(c) && s.cell.lastPing == Apply(s, a).cell.lastPing
  {
  }

  // When the ping was made that step `a` records.
  function PingTime(s: State, a: Action): int
    requires Enabled(s, a) && (a.Record? || a.Publish?)
  {
    s.threads[a.t].at
  }

  // Phase 1 hands out a client only if a ping of that client was recorded less than the
  // TTL ago.  The ping itself is older by as long as its thread took to record it.
  lemma FreshMeansRecentlyRecorded(states: seq<State>, actions: seq<Action>, t: Thread, c: Client, j: nat)
    returns (k: nat)
    requires IsRun(states, actions) && j < |actions| && actions[j] == CheckCache(t)
    requires states[j + 1].threads[t] == Returned(c, Fresh)
    ensures k < j && RecordsPing(states[k], actions[k], c)
    ensures states[j].now - states[k].now < states[j].knobs.ttl
    ensures var at := PingTime(states[k], actions[k]);
            && (c, at) in states[k].world.pings && at <= states[k].now
            && states[j].now - at < states[j].knobs.ttl + (states[k].now - at)
  {
    k := LastPingWasRecorded(states, actions, c, j);
    RunKeepsInv(states, actions, k);
    assert ThreadInv(states[k], actions[k].t);
  }

  lemma {:induction false} PingStays(states: seq<State>, actions: seq<Action>, p: (Client, int), i: nat, j: nat)
    requires IsRun(states, actions) && i <= j < |states| && p in states[i].world.pings
    ensures p in states[j].world.pings
  {
    if i < j {
      PingStays(states, actions, p, i, j - 1);
      assert Enabled(states[j - 1], actions[j - 1]);
    }
  }

  // If no thread takes longer than d to record a ping, then phase 1 hands out only clients
  // that answered a ping less than the TTL and d ago.
  lemma FreshPingAge(states: seq<State>, actions: seq<Action>, t: Thread, c: Client, j: nat, d: int)
    requires IsRun(states, actions) && j < |actions| && actions[j] == CheckCache(t)
    requires states[j + 1].threads[t] == Returned(c, Fresh)
    requires forall k {:trigger actions[k]} :: 0 <= k < j && (actions[k].Record? || actions[k].Publish?) ==>
               Enabled(states[k], actions[k]) && states[k].now - PingTime(states[k], actions[k]) <= d
    ensures exists at :: (c, at) in states[j].world.pings && states[j].now - at < states[j].knobs.ttl + d
  {
    var k := FreshMeansRecentlyRecorded(states, actions, t, c, j);
    var at := PingTime(states[k], actions[k]);
    PingStays(states, actions, (c, at), k, j);
    assert actions[k].Record? || actions[k].Publish?;
  }

  // ---------------------------------------------------------------- open clients

  // A failed build that finds an open client installed by another thread.
  predicate DropsOpenClient(s: State, a: Action) {
    a.RecordFailure? && OpenCurrent(s) != {}
  }

  lemma OrphanStep(s: State, a: Action)
    requires Enabled(s, a)
    ensures Apply(s, a).world.orphaned ==
            s.world.orphaned + if DropsOpenClient(s, a) then OpenCurrent(s) else {}
  {
  }

  predicate Drops(s: State, a: Action, c: Client) {
    a.RecordFailure? && s.cell.client == Some(c) && c !in s.world.closed
  }

  // Open, yet neither current nor about to be published: nobody will ever close it by
  // way of the global.
  ghost predicate Lost(s: State, c: Client) {
    && c in s.world.built && c !in s.world.closed
    && s.cell.client != Some(c) && forall t :: !InHand(s, t, c)
  }

  lemma {:induction false} OrphansWereDropped(states: seq<State>, actions: seq<Action>, i: nat, c: Client)
    returns (k: nat)
    requires IsRun(states, actions) && i < |states| && c in states[i].world.orphaned
    ensures k < i && Drops(states[k], actions[k], c)
  {
    OrphanStep(states[i - 1], actions[i - 1]);
    if c in states[i - 1].world.orphaned {
      k := OrphansWereDropped(states, actions, i - 1, c);
    } else {
      k := i - 1;
    }
  }

  lemma NeverCurrentAgain(s: State, a: Action, c: Client)
    requires Inv(s) && Enabled(s, a) && c in s.world.published && s.cell.client != Some(c)
    ensures Apply(s, a).cell.client != Some(c)
  {
    if a.Publish? { assert ThreadInv(s, a.t); }
  }

  lemma {:induction false} DroppedStaysOut(states: seq<State>, actions: seq<Action>, k: nat, i: nat, c: Client)
    requires IsRun(states, actions) && k < i < |states| && Drops(states[k], actions[k], c)
    ensures c in states[i].world.published && states[i].cell.client != Some(c)
  {
    RunKeepsInv(states, actions, k);
    PublishedStays(states, actions, c, k, i);
    if k + 1 < i {
      DroppedStaysOut(states, actions, k, i - 1, c);
      RunKeepsInv(states, actions, i - 1);
      NeverCurrentAgain(states[i - 1], actions[i - 1], c);
    }
  }

  // A client is lost exactly if a failed build dropped it while it was installed and open
  // and no thread that still held it has closed it since.
  lemma LostWhenDropped(states: seq<State>, actions: seq<Action>, i: nat, c: Client)
    requires IsRun(states, actions) && i < |states|
    ensures Lost(states[i], c) <==>
            c !in states[i].world.closed && exists k :: 0 <= k < i && Drops(states[k], actions[k], c)
  {
    RunKeepsInv(states, actions, i);
    if Lost(states[i], c) {
      assert Accounted(states[i], c);
      var k := OrphansWereDropped(states, actions, i, c);
    }
    if k :| 0 <= k < i && Drops(states[k], actions[k], c) {
      DroppedStaysOut(states, actions, k, i, c);
      forall t ensures !InHand(states[i], t, c) {
        if t in states[i].threads { assert ThreadInv(states[i], t); }
      }
    }
  }

  // In a whole run no client is ever lost exactly if no failed build finds an open client
  // installed.
  lemma NoClientIsLost(states: seq<State>, actions: seq<Action>)
    requires IsRun(states, actions)
    ensures (forall i, c :: 0 <= i < |states| ==> !Lost(states[i], c)) <==>
            (forall k {:trigger actions[k]} :: 0 <= k < |actions| ==> !DropsOpenClient(states[k], actions[k]))
  {
    if k :| 0 <= k < |actions| && DropsOpenClient(states[k], actions[k]) {
      DropLoses(states, actions, k);
    }
    if i, c :| 0 <= i < |states| && Lost(states[i], c) {
      LostWhenDropped(states, actions, i, c);
      var k :| 0 <= k < i && Drops(states[k], actions[k], c);
      assert DropsOpenClient(states[k], actions[k]) by { assert c in OpenCurrent(states[k]); }
    }
  }

  lemma DropLoses(states: seq<State>, actions: seq<Action>, k: nat)
    requires IsRun(states, actions) && k < |actions| && DropsOpenClient(states[k], actions[k])
    ensures states[k].cell.client.Some? && Lost(states[k + 1], states[k].cell.client.value)
  {
    var c := states[k].cell.client.value;
    assert c in OpenCurrent(states[k]);
    assert Drops(states[k], actions[k], c);
    assert Enabled(states[k], actions[k]);
    LostWhenDropped(states, actions, k + 1, c);
  }

  lemma Extend(states: seq<State>, actions: seq<Action>, a: Action)
    returns (states': seq<State>, actions': seq<Action>)
    requires IsRun(states, actions) && Enabled(states[|actions|], a)
    ensures actions' == actions + [a] && states' == states + [Apply(states[|actions|], a)]
    ensures IsRun(states', actions')
  {
    actions', states' := actions + [a], states + [Apply(states[|actions|], a)];
  }

  lemma ReachBuilding(t: Thread, states: seq<State>, actions: seq<Action>)
    returns (states': seq<State>, actions': seq<Action>)
    requires IsRun(states, actions)
    requires var s := states[|actions|];
             t !in s.threads && s.cell.client.None? && s.now - s.cell.failedAt >= s.knobs.backoff
    ensures IsRun(states', actions')
    ensures states'[|actions'|] == Move(states[|actions|], t, Building)
  {
    states', actions' := Extend(states, actions, Enter(t));
    states', actions' := Extend(states', actions', CheckCache(t));
    states', actions' := Extend(states', actions', ReadCandidate(t));
    assert states'[|actions'|].threads == states[|actions|].threads[t := Building];
  }

  // The drop does happen: two threads build, one publishes, the other one's failure
  // clears the global.  The open client is then neither closed nor reachable.
  lemma OpenClientCanBeDropped() returns (states: seq<State>, actions: seq<Action>)
    ensures IsRun(states, actions)
    ensures var s := states[|actions|];
            && 7 in s.world.built && 7 !in s.world.closed
            && s.cell.client.None? && forall t :: !InHand(s, t, 7)
  {
    states, actions := [Initial(Knobs(3, 1), 10)], [];
    states, actions := ReachBuilding(0, states, actions);
    states, actions := ReachBuilding(1, states, actions);
    states, actions := Extend(states, actions, BuildSucceeds(0, 7));
    states, actions := Extend(states, actions, Publish(0));
    states, actions := Extend(states, actions, BuildFails(1));
    states, actions := Extend(states, actions, RecordFailure(1));
  }

  // Getting a thread past a successful ping of the current client, up to its record.
  lemma ReachRecording(t: Thread, c: Client, states: seq<State>, actions: seq<Action>)
    returns (states': seq<State>, actions': seq<Action>)
    requires IsRun(states, actions)
    requires var s := states[|actions|];
             t !in s.threads && s.cell.client == Some(c) && s.now - s.cell.lastPing >= s.knobs.ttl
    ensures IsRun(states', actions')
    ensures var s, s' := states[|actions|], states'[|actions'|];
            && s'.threads == s.threads[t := Recording(c, s.now)]
            && s'.cell == s.cell && s'.now == s.now && s'.knobs == s.knobs
            && s'.world == s.world.(pings := s.world.pings + {(c, s.now)})
  {
    states', actions' := Extend(states, actions, Enter(t));
    states', actions' := Extend(states', actions', CheckCache(t));
    states', actions' := Extend(states', actions', ReadCandidate(t));
    states', actions' := Extend(states', actions', PingSucceeds(t));
    assert states'[|actions'|].threads == states[|actions|].threads[t := Recording(c, states[|actions|].now)];
  }

  lemma ReachInstalled() returns (states: seq<State>, actions: seq<Action>)
    ensures IsRun(states, actions)
    ensures var s := states[|actions|];
            && s.knobs == Knobs(3, 1) && s.now == 10 && s.cell == Cell(Some(7), 0, 10)
            && s.threads.Keys == {0} && s.world.pings == {(7, 10)}
  {
    states, actions := [Initial(Knobs(3, 1), 10)], [];
    states, actions := ReachBuilding(0, states, actions);
    states, actions := Extend(states, actions, BuildSucceeds(0, 7));
    states, actions := Extend(states, actions, Publish(0));
  }

  // What counts is when the ping was recorded, not when it was made: here phase 1
  // returns a client whose latest successful ping lies 100 seconds back, with a TTL of 3.
  lemma FreshClientMayBeLongUnpinged() returns (states: seq<State>, actions: seq<Action>, i: nat)
    ensures IsRun(states, actions) && i < |actions| && actions[i] == CheckCache(2)
    ensures 2 in states[i + 1].threads && states[i + 1].threads[2] == Returned(7, Fresh)
    ensures states[i].knobs.ttl == 3 && forall at :: (7, at) in states[i].world.pings ==> states[i].now - at >= 100
  {
    states, actions := ReachInstalled();
    states, actions := Extend(states, actions, Tick(5));
    states, actions := ReachRecording(1, 7, states, actions);
    states, actions := Extend(states, actions, Tick(100));
    states, actions := Extend(states, actions, Record(1));
    states, actions := Extend(states, actions, Enter(2));
    i := |actions|;
    states, actions := Extend(states, actions, CheckCache(2));
  }

  lemma ReachDiscarding() returns (states: seq<State>, actions: seq<Action>)
    ensures IsRun(states, actions)
    ensures var s := states[|actions|];
            && s.knobs == Knobs(3, 1) && s.now == 15 && s.cell == Cell(Some(7), 0, 10)
            && s.threads.Keys == {0, 1} && s.threads[1] == Discarding(7)
  {
    states, actions := ReachInstalled();
    states, actions := Extend(states, actions, Tick(5));
    states, actions := Extend(states, actions, Enter(1));
    states, actions := Extend(states, actions, CheckCache(1));
    states, actions := Extend(states, actions, ReadCandidate(1));
    states, actions := Extend(states, actions, PingFails(1));
  }

  // A client is closed before it is un-published, so phase 1 can hand out a closed one.
  lemma FreshClientMayBeClosed() returns (states: seq<State>, actions: seq<Action>, i: nat)
    ensures IsRun(states, actions) && i < |actions| && actions[i] == CheckCache(3)
    ensures 3 in states[i + 1].threads && states[i + 1].threads[3] == Returned(7, Fresh)
    ensures 7 in states[i].world.closed
  {
    states, actions := ReachDiscarding();
    states, actions := ReachRecording(2, 7, states, actions);
    states, actions := Extend(states, actions, Record(2));
    states, actions := Extend(states, actions, CloseStale(1));
    states, actions := Extend(states, actions, Enter(3));
    i := |actions|;
    states, actions := Extend(states, actions, CheckCache(3));
  }

  predicate IsClearing(s: State, t: Thread, c: Client) { t in s.threads && s.threads[t] == Clearing(c) }

  lemma ClosedCurrentStep(s: State, a: Action, c: Client)
    requires Inv(s) && Enabled(s, a)
    requires s.cell.client == Some(c) && c in s.world.closed ==> exists t :: IsClearing(s, t, c)
    requires Apply(s, a).cell.client == Some(c) && c in Apply(s, a).world.closed
    ensures exists t :: IsClearing(Apply(s, a), t, c)
  {
    if a.CloseStale? && s.threads[a.t].c == c {
      assert IsClearing(Apply(s, a), a.t, c);
    } else if a.Publish? {
      assert ThreadInv(s, a.t);
      var t :| IsClearing(s, t, c);
      assert IsClearing(Apply(s, a), t, c);
    } else {
      var t :| IsClearing(s, t, c);
      assert IsClearing(Apply(s, a), t, c);
    }
  }

  // The installed client is closed exactly while some thread stands between closing it and
  // un-publishing it.  So phase 1 hands out a closed client exactly then.
  lemma {:induction false} InstalledIsClosedWhen(states: seq<State>, actions: seq<Action>, i: nat, c: Client)
    requires IsRun(states, actions) && i < |states| && states[i].cell.client == Some(c)
    ensures c in states[i].world.closed <==> exists t :: IsClearing(states[i], t, c)
  {
    RunKeepsInv(states, actions, i);
    if t :| IsClearing(states[i], t, c) { assert ThreadInv(states[i], t); }
    if i > 0 && c in states[i].world.closed {
      RunKeepsInv(states, actions, i - 1);
      if states[i - 1].cell.client == Some(c) { InstalledIsClosedWhen(states, actions, i - 1, c); }
      ClosedCurrentStep(states[i - 1], actions[i - 1], c);
    }
  }

  lemma FreshIsClosedWhen(states: seq<State>, actions: seq<Action>, t: Thread, c: Client, j: nat)
    requires IsRun(states, actions) && j < |actions| && actions[j] == CheckCache(t)
    requires states[j + 1].threads[t] == Returned(c, Fresh)
    ensures c in states[j].world.closed <==> exists u :: IsClearing(states[j], u, c)
  {
    assert Enabled(states[j], actions[j]);
    InstalledIsClosedWhen(states, actions, j, c);
  }
}
