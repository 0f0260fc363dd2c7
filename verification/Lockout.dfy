/** The two per-IP failure counters: WebSocket authentication (skiff/auth.py) and setup
    (skiff/routers/setup.py).  They are the same machine with different knobs; only what
    their read-only probes answer differs. */
module Lockout {
  import opened Text

  type Ip = string

  datatype Knobs = Knobs(maxAttempts: int, secs: real)

  datatype Entry = Entry(count: nat, last: real)

  type Table = map<Ip, Entry>

  function CountOf(table: Table, ip: Ip): nat { if ip in table then table[ip].count else 0 }

  // The check of `_ws_is_locked_out` and `_enforce_lockout`.
  predicate Locked(table: Table, ip: Ip, now: real, k: Knobs) {
    ip in table && table[ip].count >= k.maxAttempts && now - table[ip].last < k.secs
  }

  // The clean-up the same check does.
  function Evict(table: Table, ip: Ip, now: real, k: Knobs): Table {
    if ip in table && now - table[ip].last >= k.secs then table - {ip} else table
  }

  function RecordFailure(table: Table, ip: Ip, now: real): Table {
    table[ip := Entry(if ip in table then table[ip].count + 1 else 1, now)]
  }

  // `_setup_lockout_remaining`; `int()` rounds a positive number down.
  function SetupRemaining(table: Table, ip: Ip, now: real, k: Knobs): Option<int> {
    if ip !in table || table[ip].count < k.maxAttempts then None
    else if k.secs - (now - table[ip].last) <= 0.0 then None
    else Some((k.secs - (now - table[ip].last)).Floor)
  }

  // `ws_lockout_remaining`
  function WsRemaining(table: Table, ip: Ip, now: real, k: Knobs): int {
    if ip !in table || table[ip].count < k.maxAttempts then 0
    else if k.secs - (now - table[ip].last) <= 0.0 then 0
    else (k.secs - (now - table[ip].last)).Floor
  }

  class Counter {
    const knobs: Knobs
    var failures: Table

    constructor (knobs: Knobs)
      ensures this.knobs == knobs && failures == map[]
    {
      this.knobs := knobs;
      failures := map[];
    }

    // Whether the attempt is refused; a stale entry goes.
    method Check(ip: Ip, now: real) returns (locked: bool)
      modifies this
      ensures locked <==> Locked(old(failures), ip, now, knobs)
      ensures failures == Evict(old(failures), ip, now, knobs)
    {
      if ip !in failures {
        return false;
      }
      var Entry(count, last) := failures[ip];
      if count >= knobs.maxAttempts && now - last < knobs.secs {
        return true;
      }
      if now - last >= knobs.secs {
        failures := failures - {ip};
      }
      return false;
    }

    // Whether this failure is the one that trips the lockout.
    method Fail(ip: Ip, now: real) returns (justTripped: bool)
      modifies this
      ensures failures == RecordFailure(old(failures), ip, now)
      ensures justTripped <==> CountOf(old(failures), ip) < knobs.maxAttempts <= CountOf(failures, ip)
    {
      var count := if ip in failures then failures[ip].count else 0;
      failures := failures[ip := Entry(count + 1, now)];
      justTripped := count < knobs.maxAttempts && count + 1 >= knobs.maxAttempts;
    }

    method Clear(ip: Ip)
      modifies this
      ensures failures == old(failures) - {ip}
    {
      failures := failures - {ip};
    }
  }

  // ---------------------------------------------------------------- probes and enforcement

  lemma SetupProbeAgrees(table: Table, ip: Ip, now: real, k: Knobs)
    ensures SetupRemaining(table, ip, now, k).Some? <==> Locked(table, ip, now, k)
  {
  }

  // A locked address is told a number less than one second below the true remainder,
  // hence 0 exactly in the last second.
  lemma WsProbeAgrees(table: Table, ip: Ip, now: real, k: Knobs)
    ensures WsRemaining(table, ip, now, k) > 0 ==> Locked(table, ip, now, k)
    ensures !Locked(table, ip, now, k) ==> WsRemaining(table, ip, now, k) == 0
    ensures Locked(table, ip, now, k) ==>
              var left := k.secs - (now - table[ip].last);
              && left - 1.0 < WsRemaining(table, ip, now, k) as real <= left
              && (WsRemaining(table, ip, now, k) == 0 <==> left < 1.0)
              && SetupRemaining(table, ip, now, k) == Some(WsRemaining(table, ip, now, k))
  {
  }

  // ---------------------------------------------------------------- runs

  type Attempt = nat

  // What attempt `a` of an address does to the table: its check, then a failure, a success
  // that clears the counter, or an end without either.
  datatype Event =
    | Checked(a: Attempt, ip: Ip, t: real)
    | Failed(a: Attempt, ip: Ip, t: real)
    | Cleared(a: Attempt, ip: Ip, t: real)
    | Dropped(a: Attempt, ip: Ip, t: real)

  function Step(table: Table, e: Event, k: Knobs): Table {
    match e
    case Checked(_, ip, t) => Evict(table, ip, t, k)
    case Failed(_, ip, t) => RecordFailure(table, ip, t)
    case Cleared(_, ip, _) => table - {ip}
    case Dropped(_, _, _) => table
  }

  // The table after these events.
  function Run(table: Table, events: seq<Event>, k: Knobs): Table
    decreases |events|
  {
    if events == [] then table else Run(Step(table, events[0], k), events[1..], k)
  }

  function After(events: seq<Event>, k: Knobs): Table {
    if events == [] then map[] else Step(After(events[..|events| - 1], k), events[|events| - 1], k)
  }

  // ---------------------------------------------------------------- evictions

  predicate IsCheck(e: Event, ip: Ip) { e.Checked? && e.ip == ip }

  // Each failure of this address comes after a check of it among these events.
  predicate ChecksFirst(events: seq<Event>, ip: Ip) {
    forall y :: 0 <= y < |events| && events[y].Failed? && events[y].ip == ip ==>
      exists x :: 0 <= x < y && IsCheck(events[x], ip)
  }

  // The same table, but for an entry of `ip` that was stale at time `now`.
  ghost predicate SameButStale(t: Table, u: Table, ip: Ip, now: real, k: Knobs) {
    && (forall other :: other != ip ==> (other in t <==> other in u) && (other in t ==> t[other] == u[other]))
    && (ip in t ==> ip in u && t[ip] == u[ip])
    && (ip !in t && ip in u ==> now - u[ip].last >= k.secs)
  }

  lemma SameAnswers(t: Table, u: Table, ip: Ip, now: real, other: Ip, later: real, k: Knobs)
    requires SameButStale(t, u, ip, now, k) && now <= later
    ensures Locked(t, other, later, k) == Locked(u, other, later, k)
    ensures SetupRemaining(t, other, later, k) == SetupRemaining(u, other, later, k)
    ensures WsRemaining(t, other, later, k) == WsRemaining(u, other, later, k)
  {
  }

  lemma {:induction false} EqualTablesStay(t: Table, u: Table, ip: Ip, now: real, events: seq<Event>, k: Knobs)
    requires SameButStale(t, u, ip, now, k) && (ip in t <==> ip in u)
    ensures SameButStale(Run(t, events, k), Run(u, events, k), ip, now, k)
    decreases |events|
  {
    if events != [] { EqualTablesStay(Step(t, events[0], k), Step(u, events[0], k), ip, now, events[1..], k); }
  }

  lemma {:induction false} StaleStays(t: Table, u: Table, ip: Ip, now: real, events: seq<Event>, k: Knobs)
    requires SameButStale(t, u, ip, now, k) && ChecksFirst(events, ip)
    requires forall y :: 0 <= y < |events| ==> now <= events[y].t
    ensures SameButStale(Run(t, events, k), Run(u, events, k), ip, now, k)
    decreases |events|
  {
    if events != [] {
      var e, rest := events[0], events[1..];
      var t', u' := Step(t, e, k), Step(u, e, k);
      if e.ip == ip && !e.Dropped? {
        EqualTablesStay(t', u', ip, now, rest, k);
      } else {
        forall y | 0 <= y < |rest| && rest[y].Failed? && rest[y].ip == ip
          ensures exists x :: 0 <= x < y && IsCheck(rest[x], ip)
        {
          assert events[y + 1] == rest[y];
          var x :| 0 <= x < y + 1 && IsCheck(events[x], ip);
          assert IsCheck(rest[x - 1], ip);
        }
        assert forall y :: 0 <= y < |rest| ==> rest[y] == events[y + 1];
        StaleStays(t', u', ip, now, rest, k);
      }
    }
  }

  // Evicting a stale entry changes no answer given to anyone at that time or later, through
  // any events in which each failure of that address follows a check of it.
  lemma EvictionIsInvisible(table: Table, ip: Ip, now: real, events: seq<Event>, other: Ip, later: real, k: Knobs)
    requires ChecksFirst(events, ip) && now <= later
    requires forall y :: 0 <= y < |events| ==> now <= events[y].t
    ensures var t, u := Run(Evict(table, ip, now, k), events, k), Run(table, events, k);
            && Locked(t, other, later, k) == Locked(u, other, later, k)
            && SetupRemaining(t, other, later, k) == SetupRemaining(u, other, later, k)
            && WsRemaining(t, other, later, k) == WsRemaining(u, other, later, k)
  {
    StaleStays(Evict(table, ip, now, k), table, ip, now, events, k);
    SameAnswers(Run(Evict(table, ip, now, k), events, k), Run(table, events, k), ip, now, other, later, k);
  }

  // Without the check it shows: an attempt that was checked before the eviction and fails
  // after it starts counting afresh.  The answer after that failure changes exactly if there
  // was an entry to evict and its count, with this failure, reaches a cap of two or more.
  lemma EvictionShowsWithoutCheck(table: Table, ip: Ip, now: real, a: Attempt, t: real, k: Knobs)
    ensures var evicted := Run(Evict(table, ip, now, k), [Failed(a, ip, t)], k);
            Locked(evicted, ip, t, k) != Locked(Run(table, [Failed(a, ip, t)], k), ip, t, k) <==>
              k.secs > 0.0 && ip in table && now - table[ip].last >= k.secs && table[ip].count + 1 >= k.maxAttempts >= 2
  {
    var e := Failed(a, ip, t);
    assert [e][1..] == [];
    assert Run(table, [e], k) == Run(Step(table, e, k), [], k);
    assert Run(Evict(table, ip, now, k), [e], k) == Run(Step(Evict(table, ip, now, k), e, k), [], k);
  }

  // The failures of this address among these events.
  function FailuresOf(events: seq<Event>, ip: Ip): nat {
    if events == [] then 0
    else (if events[0].Failed? && events[0].ip == ip then 1 else 0) + FailuresOf(events[1..], ip)
  }

  lemma {:induction false} CountGrowsByFailures(table: Table, events: seq<Event>, ip: Ip, k: Knobs)
    ensures CountOf(Run(table, events, k), ip) <= CountOf(table, ip) + FailuresOf(events, ip)
    decreases |events|
  {
    if events != [] { CountGrowsByFailures(Step(table, events[0], k), events[1..], ip, k); }
  }

  // Once the lockout time has passed since its last failure, the check lets an address in and
  // it starts afresh: only a full number of further failures locks it again.
  lemma StartsAfresh(table: Table, ip: Ip, now: real, events: seq<Event>, t: real, k: Knobs)
    requires ip in table ==> now - table[ip].last >= k.secs
    requires FailuresOf(events, ip) < k.maxAttempts
    ensures !Locked(table, ip, now, k)
    ensures !Locked(Run(Evict(table, ip, now, k), events, k), ip, t, k)
  {
    CountGrowsByFailures(Evict(table, ip, now, k), events, ip, k);
  }

  // ---------------------------------------------------------------- the bound over a run

  // The attempts of this address that were let through and have not ended.
  function InFlight(events: seq<Event>, ip: Ip, k: Knobs): set<Attempt> {
    if events == [] then {}
    else
      var before, e := events[..|events| - 1], events[|events| - 1];
      var flight := InFlight(before, ip, k);
      if e.ip != ip then flight
      else if !e.Checked? then flight - {e.a}
      else if Locked(After(before, k), ip, e.t, k) then flight
      else flight + {e.a}
  }

  // The time of the latest event of this address.
  function Latest(events: seq<Event>, ip: Ip): Option<real> {
    if events == [] then None
    else if events[|events| - 1].ip == ip then Some(events[|events| - 1].t)
    else Latest(events[..|events| - 1], ip)
  }

  // The times of one address do not go back, and what is not a check belongs to an attempt
  // whose own check let it through.
  predicate Follows(before: seq<Event>, e: Event, ip: Ip, k: Knobs) {
    e.ip == ip ==>
      && (Latest(before, ip).Some? ==> Latest(before, ip).value <= e.t)
      && (if e.Checked? then e.a !in InFlight(before, ip, k) else e.a in InFlight(before, ip, k))
  }

  // The attempts of `ip` go this way, at most `m` at a time.  Nothing is asked of the other
  // addresses.
  predicate Attempts(events: seq<Event>, ip: Ip, k: Knobs, m: nat) {
    events == [] ||
    (&& Attempts(events[..|events| - 1], ip, k, m)
     && Follows(events[..|events| - 1], events[|events| - 1], ip, k)
     && |InFlight(events, ip, k)| <= m)
  }

  predicate IsFailure(e: Event, ip: Ip) { e.Failed? && e.ip == ip }

  // The failures among the events from x on, up to before y.
  function Failures(events: seq<Event>, ip: Ip, x: nat, y: nat): nat
    requires y <= |events|
  {
    if y <= x then 0 else Failures(events, ip, x, y - 1) + if IsFailure(events[y - 1], ip) then 1 else 0
  }

  predicate NoClear(events: seq<Event>, ip: Ip, x: nat, y: nat)
    requires y <= |events|
  {
    forall z :: x <= z < y ==> !(events[z].Cleared? && events[z].ip == ip)
  }

  // The entry after a window that starts with a failure at time `t0` and has `n` of them:
  // they are all counted, and once they reach the cap each further one uses up an attempt in
  // flight.
  predicate WindowInv(table: Table, ip: Ip, t0: real, n: nat, flight: set<Attempt>, k: Knobs, m: nat) {
    && ip in table && 1 <= n <= table[ip].count && table[ip].last >= t0
    && |flight| <= m && (n >= k.maxAttempts ==> n + |flight| <= k.maxAttempts + m - 1)
  }

  lemma WindowStep(before: seq<Event>, e: Event, ip: Ip, t0: real, n: nat, k: Knobs, m: nat)
    requires WindowInv(After(before, k), ip, t0, n, InFlight(before, ip, k), k, m)
    requires Follows(before, e, ip, k) && |InFlight(before + [e], ip, k)| <= m
    requires e.ip == ip ==> !e.Cleared? && t0 <= e.t < t0 + k.secs
    ensures WindowInv(After(before + [e], k), ip, t0, n + if IsFailure(e, ip) then 1 else 0,
                      InFlight(before + [e], ip, k), k, m)
  {
    var events := before + [e];
    assert events[..|events| - 1] == before && events[|events| - 1] == e;
    var flight := InFlight(before, ip, k);
    if e.ip == ip && !e.Checked? { assert |flight - {e.a}| == |flight| - 1; }
  }

  lemma WindowStart(before: seq<Event>, e: Event, ip: Ip, k: Knobs, m: nat)
    requires IsFailure(e, ip) && Follows(before, e, ip, k) && |InFlight(before, ip, k)| <= m && k.maxAttempts >= 1
    ensures WindowInv(After(before + [e], k), ip, e.t, 1, InFlight(before + [e], ip, k), k, m)
  {
    var events := before + [e];
    assert events[..|events| - 1] == before && events[|events| - 1] == e;
    var flight := InFlight(before, ip, k);
    assert |flight - {e.a}| == |flight| - 1;
  }

  lemma {:induction false} PrefixAttempts(events: seq<Event>, ip: Ip, k: Knobs, m: nat, y: nat)
    requires Attempts(events, ip, k, m) && y <= |events|
    ensures Attempts(events[..y], ip, k, m) && |InFlight(events[..y], ip, k)| <= m
    ensures y < |events| ==>
              events[..y + 1] == events[..y] + [events[y]] && Follows(events[..y], events[y], ip, k)
  {
    if y == |events| {
      assert events[..y] == events;
    } else {
      var init := events[..|events| - 1];
      if y < |init| {
        PrefixAttempts(init, ip, k, m, y);
        assert init[..y] == events[..y] && init[y] == events[y];
      } else {
        assert events[..y] == init;
        PrefixAttempts(init, ip, k, m, y);
        assert init[..y] == init;
      }
    }
  }

  // Over any run: from a failure at step x on, as long as less than the lockout has passed
  // and nothing cleared the counter.
  lemma {:induction false} RunInv(events: seq<Event>, ip: Ip, k: Knobs, m: nat, x: nat, y: nat)
    requires Attempts(events, ip, k, m) && k.maxAttempts >= 1
    requires x < y <= |events| && IsFailure(events[x], ip) && NoClear(events, ip, x, y)
    requires forall z :: x <= z < y && events[z].ip == ip ==> events[x].t <= events[z].t < events[x].t + k.secs
    ensures WindowInv(After(events[..y], k), ip, events[x].t, Failures(events, ip, x, y),
                      InFlight(events[..y], ip, k), k, m)
  {
    PrefixAttempts(events, ip, k, m, y - 1);
    PrefixAttempts(events, ip, k, m, y);
    if x + 1 == y {
      WindowStart(events[..x], events[x], ip, k, m);
    } else {
      RunInv(events, ip, k, m, x, y - 1);
      WindowStep(events[..y - 1], events[y - 1], ip, events[x].t, Failures(events, ip, x, y - 1), k, m);
    }
  }

  lemma {:induction false} TimesInOrder(events: seq<Event>, ip: Ip, k: Knobs, m: nat, x: nat, y: nat)
    requires Attempts(events, ip, k, m) && x <= y < |events| && events[x].ip == ip && events[y].ip == ip
    ensures events[x].t <= events[y].t
  {
    if x < y {
      PrefixAttempts(events, ip, k, m, y);
      var z := LatestAfter(events[..y], ip, x);
      TimesInOrder(events, ip, k, m, x, z);
    }
  }

  lemma {:induction false} LatestAfter(events: seq<Event>, ip: Ip, x: nat) returns (z: nat)
    requires x < |events| && events[x].ip == ip
    ensures x <= z < |events| && events[z].ip == ip && Latest(events, ip) == Some(events[z].t)
  {
    if events[|events| - 1].ip == ip {
      z := |events| - 1;
    } else {
      z := LatestAfter(events[..|events| - 1], ip, x);
    }
  }

  // With at most m attempts of one address in flight, any stretch shorter than the lockout
  // holds at most the cap and m - 1 of its failures, whatever the other addresses do; with
  // its attempts one after the other, at most the cap.
  lemma LockoutBound(events: seq<Event>, ip: Ip, k: Knobs, m: nat, x: nat, y: nat)
    requires Attempts(events, ip, k, m) && k.maxAttempts >= 1
    requires x <= y < |events| && IsFailure(events[x], ip) && IsFailure(events[y], ip)
    requires events[y].t - events[x].t < k.secs && NoClear(events, ip, x, y)
    ensures Failures(events, ip, x, y + 1) <= k.maxAttempts + m - 1
  {
    forall z | x <= z < y + 1 && events[z].ip == ip ensures events[x].t <= events[z].t < events[x].t + k.secs {
      TimesInOrder(events, ip, k, m, x, z);
      TimesInOrder(events, ip, k, m, z, y);
    }
    PrefixAttempts(events, ip, k, m, y);
    RunInv(events, ip, k, m, x, y + 1);
    assert m >= 1;
  }

  // ---------------------------------------------------------------- the bound is sharp

  predicate AtZero(e: Event, ip: Ip) { e.ip == ip && e.t == 0.0 && (e.Checked? || e.Failed?) }

  // A run at a single moment with so many failures and these attempts in flight.
  ghost predicate AtOnce(events: seq<Event>, ip: Ip, k: Knobs, m: nat, n: nat, flight: set<Attempt>) {
    && Attempts(events, ip, k, m)
    && (forall y :: 0 <= y < |events| ==> AtZero(events[y], ip))
    && Failures(events, ip, 0, |events|) == n && InFlight(events, ip, k) == flight && |flight| <= m
    && (if n == 0 then ip !in After(events, k)
        else ip in After(events, k) && After(events, k)[ip] == Entry(n, 0.0))
    && (events != [] ==> Latest(events, ip) == Some(0.0))
  }

  lemma {:induction false} FailuresOfPrefix(events: seq<Event>, e: Event, ip: Ip, y: nat)
    requires y <= |events|
    ensures Failures(events + [e], ip, 0, y) == Failures(events, ip, 0, y)
  {
    if y > 0 { FailuresOfPrefix(events, e, ip, y - 1); }
  }

  lemma AddCheck(events: seq<Event>, ip: Ip, k: Knobs, m: nat, n: nat, flight: set<Attempt>, a: Attempt)
    requires AtOnce(events, ip, k, m, n, flight) && n < k.maxAttempts && k.secs > 0.0
    requires a !in flight && |flight| < m
    ensures AtOnce(events + [Checked(a, ip, 0.0)], ip, k, m, n, flight + {a})
  {
    var e := Checked(a, ip, 0.0);
    assert (events + [e])[..|events|] == events;
    FailuresOfPrefix(events, e, ip, |events|);
  }

  lemma AddFailure(events: seq<Event>, ip: Ip, k: Knobs, m: nat, n: nat, flight: set<Attempt>, a: Attempt)
    requires AtOnce(events, ip, k, m, n, flight) && a in flight
    ensures AtOnce(events + [Failed(a, ip, 0.0)], ip, k, m, n + 1, flight - {a})
  {
    var e := Failed(a, ip, 0.0);
    assert (events + [e])[..|events|] == events;
    FailuresOfPrefix(events, e, ip, |events|);
    assert |flight - {a}| < |flight|;
  }

  lemma {:induction false} OneByOne(ip: Ip, k: Knobs, m: nat, n: nat) returns (events: seq<Event>)
    requires n < k.maxAttempts && k.secs > 0.0 && m >= 1
    ensures AtOnce(events, ip, k, m, n, {})
  {
    events := [];
    if n > 0 {
      events := OneByOne(ip, k, m, n - 1);
      AddCheck(events, ip, k, m, n - 1, {}, 0);
      AddFailure(events + [Checked(0, ip, 0.0)], ip, k, m, n - 1, {} + {0}, 0);
      assert {} + {0} - {0} == {};
      events := events + [Checked(0, ip, 0.0)] + [Failed(0, ip, 0.0)];
    }
  }

  function UpTo(a: nat): (r: set<Attempt>)
    ensures |r| == a && forall b: Attempt :: b in r <==> b < a
  {
    if a == 0 then {} else UpTo(a - 1) + {a - 1}
  }

  lemma {:induction false} CheckedTogether(ip: Ip, k: Knobs, m: nat, a: nat) returns (events: seq<Event>)
    requires k.maxAttempts >= 1 && k.secs > 0.0 && 1 <= m && a <= m
    ensures AtOnce(events, ip, k, m, k.maxAttempts - 1, UpTo(a))
  {
    if a == 0 {
      events := OneByOne(ip, k, m, k.maxAttempts - 1);
    } else {
      events := CheckedTogether(ip, k, m, a - 1);
      AddCheck(events, ip, k, m, k.maxAttempts - 1, UpTo(a - 1), a - 1);
      events := events + [Checked(a - 1, ip, 0.0)];
    }
  }

  lemma {:induction false} FailedTogether(ip: Ip, k: Knobs, m: nat, a: nat) returns (events: seq<Event>)
    requires k.maxAttempts >= 1 && k.secs > 0.0 && 1 <= m && a <= m
    ensures AtOnce(events, ip, k, m, k.maxAttempts - 1 + (m - a), UpTo(a))
    decreases m - a
  {
    if a == m {
      events := CheckedTogether(ip, k, m, m);
    } else {
      events := FailedTogether(ip, k, m, a + 1);
      AddFailure(events, ip, k, m, k.maxAttempts - 1 + (m - a - 1), UpTo(a + 1), a);
      assert UpTo(a + 1) - {a} == UpTo(a);
      events := events + [Failed(a, ip, 0.0)];
    }
  }

  // For every cap and every m: all but one of the cap fail one after the other, then m
  // attempts are checked before any of them fails.  Every failure has its own check, and at
  // one moment there are as many failures as the bound allows.
  lemma ConcurrentAttemptsPassTheCap(ip: Ip, k: Knobs, m: nat) returns (events: seq<Event>)
    requires k.maxAttempts >= 1 && k.secs > 0.0 && m >= 1
    ensures Attempts(events, ip, k, m)
    ensures forall y :: 0 <= y < |events| ==> AtZero(events[y], ip)
    ensures Failures(events, ip, 0, |events|) == k.maxAttempts + m - 1
  {
    events := FailedTogether(ip, k, m, 0);
  }
}
