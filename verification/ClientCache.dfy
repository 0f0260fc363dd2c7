/** The module globals of skiff/docker_client.py and the helpers of `get_client`, one
    call at a time.  What a ping, a build or the clock does is a parameter.  Module
    ClientProtocol has the phases of many threads interleaved; what each call does under
    the lock is one of its steps. */
module ClientCache {
  import opened Text
  import opened ClientProtocol

  datatype Lookup = Hit(c: Client) | Stale | Backoff

  class Cache {
    const knobs: Knobs
    var client: Option<Client>
    var failedAt: int
    var lastPing: int
    ghost var closed: set<Client>  // every client closed so far

    function Globals(): Cell reads this { Cell(client, failedAt, lastPing) }

    // A state of the protocol with these globals, knobs and closed clients.
    ghost predicate Shows(s: State) reads this {
      s.cell == Globals() && s.knobs == knobs && s.world.closed == closed
    }

    constructor (knobs: Knobs)
      ensures this.knobs == knobs && Globals() == Cell(None, 0, 0) && closed == {}
    {
      this.knobs := knobs;
      client, failedAt, lastPing := None, 0, 0;
      closed := {};
    }

    // Phase 1.
    method CachedIfFresh(now: int) returns (r: Lookup)
      ensures r.Hit? ==> client == Some(r.c)
      ensures r.Hit? <==> client.Some? && now - lastPing < knobs.ttl
      ensures r.Backoff? <==> client.None? && now - failedAt < knobs.backoff
      ensures forall s, t {:trigger Enabled(s, CheckCache(t))} ::
                Shows(s) && s.now == now && Enabled(s, CheckCache(t)) ==>
                Apply(s, CheckCache(t)) ==
                Move(s, t, match r case Hit(c) => Returned(c, Fresh) case Stale => Missed case Backoff => Failed)
    {
      if client.None? && now - failedAt < knobs.backoff {
        return Backoff;
      }
      if client.Some? && now - lastPing < knobs.ttl {
        return Hit(client.value);
      }
      return Stale;
    }

    method DiscardStale(candidate: Client)
      modifies this
      ensures closed == old(closed) + {candidate}
      ensures client == if old(client) == Some(candidate) then None else old(client)
      ensures failedAt == old(failedAt) && lastPing == old(lastPing)
      ensures forall s, t {:trigger Enabled(s, CloseStale(t))} ::
                old(Shows(s)) && Enabled(s, CloseStale(t)) && s.threads[t].c == candidate ==>
                Shows(Apply(Apply(s, CloseStale(t)), Clear(t)))
    {
      closed := closed + {candidate};
      if client == Some(candidate) {
        client := None;
      }
    }

    // Phase 2: `alive` is what the ping says, `now` the time when the lock is taken.
    method PingOrDiscard(candidate: Option<Client>, alive: bool, now: int) returns (r: Option<Client>)
      modifies this
      ensures r == if candidate.Some? && alive then candidate else None
      ensures candidate.Some? && alive ==>
                && closed == old(closed)
                && Globals() == old(Globals()).(lastPing := if old(client) == candidate then now else old(lastPing))
      ensures candidate.Some? && !alive ==>
                && closed == old(closed) + {candidate.value}
                && Globals() == old(Globals()).(client := if old(client) == candidate then None else old(client))
      ensures candidate.None? ==> Globals() == old(Globals()) && closed == old(closed)
      ensures candidate.Some? && alive ==>
                forall s, t {:trigger Enabled(s, Record(t))} ::
                  old(Shows(s)) && s.now == now && Enabled(s, Record(t)) && s.threads[t].c == candidate.value ==>
                  Shows(Apply(s, Record(t)))
    {
      if candidate.None? {
        return None;
      }
      if !alive {
        DiscardStale(candidate.value);
        return None;
      }
      if client == candidate {
        lastPing := now;
      }
      return candidate;
    }

    // Phase 3: `built` is the new client, or None if the build fails.
    method BuildAndPublish(built: Option<Client>, now: int) returns (r: Option<Client>)
      modifies this
      ensures built.None? ==>
                r == None && Globals() == Cell(None, now, old(lastPing)) && closed == old(closed)
      ensures built.Some? && old(client).None? ==>
                r == built && Globals() == Cell(built, old(failedAt), now) && closed == old(closed)
      ensures built.Some? && old(client).Some? ==>
                r == old(client) && Globals() == old(Globals()) && closed == old(closed) + {built.value}
      ensures built.Some? ==>
                forall s, t {:trigger Enabled(s, Publish(t))} ::
                  old(Shows(s)) && s.now == now && Enabled(s, Publish(t)) && s.threads[t].c == built.value ==>
                  && Shows(Apply(s, Publish(t))) && r.Some?
                  && Apply(s, Publish(t)).threads[t] ==
                     Returned(r.value, if old(client).None? then Published else LostRace)
      ensures built.None? ==>
                forall s, t {:trigger Enabled(s, RecordFailure(t))} ::
                  old(Shows(s)) && s.now == now && Enabled(s, RecordFailure(t)) ==>
                  Shows(Apply(s, RecordFailure(t)))
    {
      if built.None? {
        client := None;
        failedAt := now;
        return None;
      }
      if client.None? {
        client := built;
        lastPing := now;
        return client;
      }
      closed := closed + {built.value};
      return client;
    }

    // With no other thread around, `get_client` raises exactly in backoff or when the
    // build it needs fails, what it returns is the installed client, and only a failed
    // ping closes anything.
    method GetClient(now: int, alive: bool, built: Option<Client>) returns (r: Option<Client>)
      requires client.Some? ==> client.value !in closed
      requires built.Some? ==> built.value !in closed && built != client
      modifies this
      ensures r.Some? ==> client == r && r.value !in closed && (now - lastPing < knobs.ttl || lastPing == now)
      ensures r.None? <==>
                || (old(client).None? && now - old(failedAt) < knobs.backoff)
                || (built.None? && (old(client).None? || (!alive && now - old(lastPing) >= knobs.ttl)))
      ensures closed == old(closed) +
                if old(client).Some? && now - old(lastPing) >= knobs.ttl && !alive
                then {old(client).value} else {}
    {
      var cached := CachedIfFresh(now);
      match cached
      case Backoff => return None;
      case Hit(c) => return Some(c);
      case Stale =>
        var candidate := client;
        var stillAlive := PingOrDiscard(candidate, alive, now);
        if stillAlive.Some? {
          return stillAlive;
        }
        r := BuildAndPublish(built, now);
    }

    method Invalidate()
      modifies this
      ensures Globals() == Cell(None, old(failedAt), 0)
      ensures closed == old(closed) + if old(client).Some? then {old(client).value} else {}
      ensures forall s {:trigger Enabled(s, Action.Invalidate)} ::
                old(Shows(s)) && Enabled(s, Action.Invalidate) ==> Shows(Apply(s, Action.Invalidate))
    {
      assert forall s :: Shows(s) ==>
               s.world.closed + OpenCurrent(s) == closed + if client.Some? then {client.value} else {};
      lastPing := 0;
      if client.Some? {
        closed := closed + {client.value};
      }
      client := None;
    }
  }
}
