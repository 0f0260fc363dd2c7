/** Session ages: `_check_session_age` and `_invalidate_session_cache` of skiff/auth.py.

    A key stands for the keyed hash of a token.  The code reads the clock before it takes
    the lock, so calls may reach the cache with times out of order; what needs them in
    order says so. */
module SessionCache {
  import opened Text

  type Key = nat

  // SESSION_ABS_TIMEOUT, SESSION_IDLE_SECS, _SESSION_CACHE_MAX
  datatype Knobs = Knobs(abs: real, idle: real, max: int)

  datatype Ages = Ages(first: map<Key, real>, last: map<Key, real>)

  // `min(first, key=first.get)`, whichever way ties are broken.
  ghost predicate Oldest(first: map<Key, real>, key: Key) {
    key in first && forall other :: other in first ==> first[key] <= first[other]
  }

  predicate Full(ages: Ages, k: Knobs) { |ages.first| >= k.max }

  function LastUse(ages: Ages, key: Key): real
    requires key in ages.first
  {
    if key in ages.last then ages.last[key] else ages.first[key]
  }

  // A check of `key` at time `t` is turned down.
  predicate Expired(ages: Ages, key: Key, t: real, k: Knobs) {
    key in ages.first && (t - ages.first[key] > k.abs || t - LastUse(ages, key) > k.idle)
  }

  // The cache after a check; `victim` is the key that goes if a new one does not fit.
  function AfterCheck(ages: Ages, key: Key, t: real, victim: Key, k: Knobs): Ages {
    if key !in ages.first then
      var kept := if Full(ages, k) then Ages(ages.first - {victim}, ages.last - {victim}) else ages;
      Ages(kept.first[key := t], kept.last[key := t])
    else if Expired(ages, key, t, k) then ages
    else ages.(last := ages.last[key := t])
  }

  lemma OldestExists(first: map<Key, real>)
    requires first != map[]
    ensures exists key :: Oldest(first, key)
  {
    var key :| key in first;
    var rest := first - {key};
    if rest == map[] {
      forall other | other in first ensures other == key { assert other !in rest; }
      assert Oldest(first, key);
    } else {
      assert rest.Keys < first.Keys;
      OldestExists(rest);
      var low :| Oldest(rest, low);
      forall other | other in first && other != key ensures rest[low] <= first[other] {
        assert other in rest;
      }
      assert Oldest(first, if first[key] <= first[low] then key else low);
    }
  }

  class Cache {
    const knobs: Knobs
    var first: map<Key, real>
    var last: map<Key, real>

    function Contents(): Ages reads this { Ages(first, last) }

    ghost predicate Valid() reads this {
      KeysInv(Contents(), knobs)
    }

    constructor (knobs: Knobs)
      requires knobs.max >= 1
      ensures Valid() && this.knobs == knobs && Contents() == Ages(map[], map[])
    {
      this.knobs := knobs;
      first, last := map[], map[];
    }

    // `time` is the clock as read before the lock is taken.
    method CheckAge(key: Key, time: real) returns (accepted: bool, ghost victim: Key)
      requires Valid()
      modifies this
      ensures Valid()
      ensures accepted <==> !Expired(old(Contents()), key, time, knobs)
      // A new key is accepted, a known one within both limits.
      ensures accepted <==>
                (key in old(first) ==> time - old(first)[key] <= knobs.abs && time - old(last)[key] <= knobs.idle)
      ensures accepted ==> key in first && key in last && last[key] == time
                           && first[key] == if key in old(first) then old(first)[key] else time
      ensures key !in old(first) && Full(old(Contents()), knobs) ==> Oldest(old(first), victim)
      ensures Contents() == AfterCheck(old(Contents()), key, time, victim, knobs)
    {
      victim := key;
      if key !in first {
        if |first| >= knobs.max {
          OldestExists(first);
          var oldest :| oldest in first && forall other :: other in first ==> first[oldest] <= first[other];
          first, last, victim := first - {oldest}, last - {oldest}, oldest;
          assert first.Keys == old(first.Keys) - {victim};
        }
        first, last := first[key := time], last[key := time];
        assert first.Keys - {key} <= old(first.Keys);
        KeysAfterCheck(old(Contents()), key, time, victim, knobs);
        return true, victim;
      }
      if time - first[key] > knobs.abs {
        return false, victim;
      }
      if time - LastUse(Contents(), key) > knobs.idle {
        return false, victim;
      }
      last := last[key := time];
      return true, victim;
    }

    method Invalidate()
      requires Valid()
      modifies this
      ensures Valid()
      ensures Contents() == Ages(map[], map[])
    {
      first, last := map[], map[];
    }
  }

  // Both maps have the same keys, and no more than the cap.
  ghost predicate KeysInv(ages: Ages, k: Knobs) {
    ages.first.Keys == ages.last.Keys && |ages.first| <= k.max && k.max >= 1
  }

  lemma KeysAfterCheck(ages: Ages, key: Key, t: real, victim: Key, k: Knobs)
    requires KeysInv(ages, k)
    requires key !in ages.first && Full(ages, k) ==> victim in ages.first
    ensures KeysInv(AfterCheck(ages, key, t, victim, k), k)
  {
    if key !in ages.first {
      var kept := if Full(ages, k) then ages.first - {victim} else ages.first;
      assert kept.Keys == if Full(ages, k) then ages.first.Keys - {victim} else ages.first.Keys;
      assert kept[key := t].Keys == kept.Keys + {key};
    }
  }

  // ---------------------------------------------------------------- runs

  datatype Event = Use(key: Key, t: real, victim: Key) | Clear(t: real)

  // History: the times of the accepted uses of an entry since it was made, and the
  // entries that have been turned down since.
  datatype State = State(ages: Ages, uses: map<Key, seq<real>>, rejected: set<Key>)

  ghost predicate Enabled(s: State, e: Event, k: Knobs) {
    e.Use? && e.key !in s.ages.first && Full(s.ages, k) ==> Oldest(s.ages.first, e.victim)
  }

  function Dropped(s: State, e: Event, k: Knobs): set<Key>
    requires e.Use?
  {
    if Full(s.ages, k) then {e.victim} else {}
  }

  function Apply(s: State, e: Event, k: Knobs): State {
    match e
    case Clear(_) => State(Ages(map[], map[]), map[], {})
    case Use(key, t, victim) =>
      var ages := AfterCheck(s.ages, key, t, victim, k);
      if key !in s.ages.first then
        State(ages, (s.uses - Dropped(s, e, k))[key := [t]], s.rejected - Dropped(s, e, k) - {key})
      else if Expired(s.ages, key, t, k) then s.(rejected := s.rejected + {key})
      else State(ages, s.uses[key := (if key in s.uses then s.uses[key] else []) + [t]], s.rejected)
  }

  ghost predicate IsRun(states: seq<State>, events: seq<Event>, k: Knobs) {
    && |states| == |events| + 1
    && states[0] == State(Ages(map[], map[]), map[], {})
    && forall i {:trigger events[i]} :: 0 <= i < |events| ==>
         Enabled(states[i], events[i], k) && states[i + 1] == Apply(states[i], events[i], k)
  }

  predicate IsUse(e: Event, key: Key) { e.Use? && e.key == key }

  // The checks of this key get the lock in the order in which they read the clock.
  predicate InOrder(events: seq<Event>, key: Key) {
    forall i, j :: 0 <= i < j < |events| && IsUse(events[i], key) && IsUse(events[j], key) ==>
      events[i].t <= events[j].t
  }

  lemma KeysStep(s: State, e: Event, k: Knobs)
    requires KeysInv(s.ages, k) && Enabled(s, e, k)
    ensures KeysInv(Apply(s, e, k).ages, k)
  {
    if e.Use? { KeysAfterCheck(s.ages, e.key, e.t, e.victim, k); }
  }

  // The two maps always have the same keys and never more than the cap, in whatever
  // order the calls come.
  lemma {:induction false} KeysAlwaysAgree(states: seq<State>, events: seq<Event>, k: Knobs, i: nat)
    requires IsRun(states, events, k) && i < |states| && k.max >= 1
    ensures KeysInv(states[i].ages, k)
  {
    if i > 0 {
      KeysAlwaysAgree(states, events, k, i - 1);
      KeysStep(states[i - 1], events[i - 1], k);
    }
  }

  // The accepted uses `us` of an entry: never further apart than the idle limit, all
  // within the absolute lifetime of the first.
  predicate WithinLimits(us: seq<real>, k: Knobs) {
    && us != []
    && (forall i {:trigger us[i]} :: 0 < i < |us| ==> 0.0 <= us[i] - us[i - 1] <= k.idle)
    && (forall i :: 0 <= i < |us| ==> 0.0 <= us[i] - us[0] <= k.abs)
  }

  predicate EntryInv(s: State, key: Key, now: real, k: Knobs) {
    && (key in s.ages.first <==> key in s.ages.last)
    && (key in s.uses <==> key in s.ages.first)
    && (key in s.ages.first ==>
          && WithinLimits(s.uses[key], k)
          && s.ages.first[key] == s.uses[key][0]
          && s.ages.last[key] == s.uses[key][|s.uses[key]| - 1]
          && s.ages.first[key] <= s.ages.last[key] <= now)
    && (key in s.rejected ==> Expired(s.ages, key, now, k))
  }

  lemma UseAppended(us: seq<real>, t: real, k: Knobs)
    requires WithinLimits(us, k)
    requires 0.0 <= t - us[|us| - 1] <= k.idle && t - us[0] <= k.abs
    ensures WithinLimits(us + [t], k)
  {
  }

  predicate NoEntry(s: State, key: Key) {
    key !in s.ages.first && key !in s.ages.last && key !in s.uses && key !in s.rejected
  }

  predicate SameEntry(s: State, u: State, key: Key) {
    && (key in s.ages.first <==> key in u.ages.first) && (key in s.ages.first ==> s.ages.first[key] == u.ages.first[key])
    && (key in s.ages.last <==> key in u.ages.last) && (key in s.ages.last ==> s.ages.last[key] == u.ages.last[key])
    && (key in s.uses <==> key in u.uses) && (key in s.uses ==> s.uses[key] == u.uses[key])
    && (key in s.rejected <==> key in u.rejected)
  }

  // What is not a check of this key leaves its entry alone or drops it.
  lemma OthersKeepOrDrop(s: State, e: Event, key: Key, k: Knobs)
    requires !IsUse(e, key)
    ensures NoEntry(Apply(s, e, k), key) || SameEntry(s, Apply(s, e, k), key)
  {
  }

  lemma SameEntrySameInv(s: State, u: State, key: Key, now: real, k: Knobs)
    requires EntryInv(s, key, now, k) && SameEntry(s, u, key)
    ensures EntryInv(u, key, now, k)
  {
  }

  lemma OtherEntryStep(s: State, e: Event, key: Key, now: real, k: Knobs)
    requires EntryInv(s, key, now, k) && !IsUse(e, key)
    ensures EntryInv(Apply(s, e, k), key, now, k)
  {
    OthersKeepOrDrop(s, e, key, k);
    if SameEntry(s, Apply(s, e, k), key) { SameEntrySameInv(s, Apply(s, e, k), key, now, k); }
  }

  lemma EntryStep(s: State, e: Event, key: Key, now: real, k: Knobs)
    requires k.abs >= 0.0 && EntryInv(s, key, now, k) && IsUse(e, key) && now <= e.t
    ensures EntryInv(Apply(s, e, k), key, e.t, k)
  {
    if key in s.ages.first && !Expired(s.ages, key, e.t, k) { UseAppended(s.uses[key], e.t, k); }
  }

  // The time of the latest check of this key.
  function LatestUse(events: seq<Event>, key: Key): (r: Option<real>)
    ensures r.Some? ==> exists i :: 0 <= i < |events| && IsUse(events[i], key) && events[i].t == r.value
    ensures r.None? ==> forall i :: 0 <= i < |events| ==> !IsUse(events[i], key)
  {
    if events == [] then None
    else
      var e := events[|events| - 1];
      if IsUse(e, key) then Some(e.t) else LatestUse(events[..|events| - 1], key)
  }

  predicate EntryAt(s: State, key: Key, latest: Option<real>, k: Knobs) {
    if latest.None? then NoEntry(s, key) else EntryInv(s, key, latest.value, k)
  }

  lemma NoEntryStep(s: State, e: Event, key: Key, k: Knobs)
    requires NoEntry(s, key) && !IsUse(e, key)
    ensures NoEntry(Apply(s, e, k), key)
  {
  }

  lemma {:induction false} EntriesInRun(states: seq<State>, events: seq<Event>, k: Knobs, i: nat, key: Key)
    requires IsRun(states, events, k) && InOrder(events, key) && i < |states| && k.abs >= 0.0
    ensures EntryAt(states[i], key, LatestUse(events[..i], key), k)
  {
    if i > 0 {
      EntriesInRun(states, events, k, i - 1, key);
      var s, e, before := states[i - 1], events[i - 1], LatestUse(events[..i - 1], key);
      assert events[..i][..i - 1] == events[..i - 1];
      if IsUse(e, key) {
        EntryStep(s, e, key, if before.Some? then before.value else e.t, k);
      } else if before.Some? {
        OtherEntryStep(s, e, key, before.value, k);
      } else {
        NoEntryStep(s, e, key, k);
      }
    }
  }

  // With the checks of one key in order, all accepted uses of its entry lie within the
  // absolute lifetime, consecutive ones at most the idle limit apart, and the recorded times
  // are those of the first and the latest of them.
  lemma AcceptedUsesWithinLimits(states: seq<State>, events: seq<Event>, k: Knobs, i: nat, key: Key)
    requires IsRun(states, events, k) && InOrder(events, key) && i < |states| && k.abs >= 0.0
    requires key in states[i].ages.first
    ensures key in states[i].uses && key in states[i].ages.last
    ensures var us, latest := states[i].uses[key], LatestUse(events[..i], key);
            && WithinLimits(us, k)
            && states[i].ages.first[key] == us[0] && states[i].ages.last[key] == us[|us| - 1]
            && latest.Some? && us[0] <= us[|us| - 1] <= latest.value
  {
    EntriesInRun(states, events, k, i, key);
  }

  lemma {:induction false} RejectedUntilGone(states: seq<State>, events: seq<Event>, k: Knobs, key: Key, i: nat, j: nat)
    requires IsRun(states, events, k) && i < j < |states|
    requires IsUse(events[i], key) && Expired(states[i].ages, key, events[i].t, k)
    requires forall m :: i < m <= j ==> key in states[m].ages.first
    ensures key in states[j].rejected
  {
    if i + 1 < j {
      RejectedUntilGone(states, events, k, key, i, j - 1);
      var s, e := states[j - 1], events[j - 1];
      assert key in s.ages.first && key in Apply(s, e, k).ages.first;
    }
  }

  // With the checks of one key in order, an entry turned down once is turned down at every
  // later check, until it is evicted or the cache is cleared.
  lemma RejectedStaysRejected(states: seq<State>, events: seq<Event>, k: Knobs, key: Key, i: nat, j: nat)
    requires IsRun(states, events, k) && InOrder(events, key) && i < j < |events| && k.abs >= 0.0
    requires IsUse(events[i], key) && Expired(states[i].ages, key, events[i].t, k)
    requires forall m :: i < m <= j ==> key in states[m].ages.first
    requires IsUse(events[j], key)
    ensures Expired(states[j].ages, key, events[j].t, k)
  {
    RejectedUntilGone(states, events, k, key, i, j);
    EntriesInRun(states, events, k, j, key);
    var latest := LatestUse(events[..j], key);
    var m :| 0 <= m < j && IsUse(events[..j][m], key) && events[..j][m].t == latest.value;
    assert events[m].t <= events[j].t;
  }

  // ---------------------------------------------------------------- calls out of order

  // One check keeps `first seen <= last seen` exactly when it is turned down or its
  // clock reading is not before the entry was made.
  lemma OrderKeptIff(ages: Ages, key: Key, t: real, victim: Key, k: Knobs)
    requires KeysInv(ages, k) && key in ages.first && ages.first[key] <= ages.last[key]
    ensures var after := AfterCheck(ages, key, t, victim, k);
            key in after.first && key in after.last &&
            (after.first[key] <= after.last[key] <==> Expired(ages, key, t, k) || ages.first[key] <= t)
  {
  }

  // Two calls that take the lock in the other order leave an entry last seen before it
  // was first seen.
  lemma LastSeenCanPrecedeFirstSeen(k: Knobs)
    requires k.max >= 1 && k.abs >= 0.0 && k.idle >= 0.0
    ensures var s := AfterCheck(AfterCheck(Ages(map[], map[]), 1, 6.0, 1, k), 1, 5.0, 1, k);
            1 in s.first && 1 in s.last && s.first[1] == 6.0 && s.last[1] == 5.0
  {
    var made := AfterCheck(Ages(map[], map[]), 1, 6.0, 1, k);
    assert !Expired(made, 1, 5.0, k);
  }

  // ... and a rejected entry can be accepted again by a call with an older reading.
  lemma RejectedCanRecover(k: Knobs)
    requires k.max >= 1 && k.abs >= 0.0 && k.idle >= 0.0
    ensures var made := AfterCheck(Ages(map[], map[]), 1, 0.0, 1, k);
            Expired(made, 1, k.abs + 1.0, k) && !Expired(made, 1, 0.0, k)
  {
  }
}
