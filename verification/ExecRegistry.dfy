/** The shared state of skiff/routers/containers_ws.py and the two handlers around it,
    one handler at a time.  Module ExecProtocol has them interleaved; what each helper does
    under the lock is one of its steps. */
module ExecRegistry {
  import opened ExecProtocol
  import opened Text

  // How a handler ended: why it turned its connection away, or what the shared state was
  // while its session ran.
  datatype Ending =
    | Handshake | ReviewerMode | CapReached
    | Ran(slots: int, sessions: set<Id>)

  class Registry {
    var connections: map<Ip, int>
    var active: set<Id>

    ghost predicate Valid() reads this {
      forall ip :: ip in connections ==> connections[ip] >= 0
    }

    // A state of the protocol with this slot table and registry.
    ghost predicate Shows(s: State) reads this {
      s.active == active && forall ip :: Get(s.slots.counts, ip) == Get(connections, ip)
    }

    constructor ()
      ensures Valid() && connections == map[] && active == {}
    {
      connections, active := map[], {};
    }

    // `_ws_acquire`; `cap` is WS_MAX_PER_IP at this moment.
    method Acquire(ip: Ip, cap: int) returns (ok: bool)
      requires Valid()
      modifies this`connections
      ensures Valid()
      ensures ok <==> old(Get(connections, ip)) < cap
      ensures forall other ::
                Get(connections, other) == old(Get(connections, other)) + if ok && other == ip then 1 else 0
      ensures forall s, h {:trigger Enabled(s, Action.Acquire(h))} ::
                old(Shows(s)) && Enabled(s, Action.Acquire(h)) && s.handlers[h].ip == ip && s.slots.cap == cap ==>
                && Shows(Apply(s, Action.Acquire(h)))
                && (ok <==> HoldsSlot(Apply(s, Action.Acquire(h)).handlers[h].pc))
    {
      if Get(connections, ip) >= cap {
        connections := connections[ip := Get(connections, ip)];
        return false;
      }
      connections := connections[ip := Get(connections, ip) + 1];
      return true;
    }

    // `_ws_release`
    method Release(ip: Ip)
      requires Valid()
      modifies this`connections
      ensures Valid()
      ensures forall other ::
                Get(connections, other) ==
                old(Get(connections, other)) - if other == ip && old(Get(connections, ip)) > 0 then 1 else 0
      ensures forall s, h {:trigger Enabled(s, Action.Release(h))} ::
                old(Shows(s)) && Enabled(s, Action.Release(h)) && s.handlers[h].ip == ip ==>
                Shows(Apply(s, Action.Release(h)))
    {
      connections := connections[ip := Max(0, Get(connections, ip) - 1)];
    }

    // `_try_register_exec_ws`; `reviewer` is what it reads from PROFILE.
    method TryRegister(session: Id, reviewer: bool) returns (ok: bool)
      modifies this`active
      ensures ok <==> !reviewer
      ensures active == if ok then old(active) + {session} else old(active)
      ensures forall s {:trigger Enabled(s, Commit(session))} ::
                old(Shows(s)) && Enabled(s, Commit(session)) && s.handlers[session].pc == InRegister(reviewer) ==>
                Shows(Apply(s, Commit(session)))
    {
      if reviewer {
        return false;
      }
      active := active + {session};
      return true;
    }

    // `_unregister_exec_ws`; discarding a session a sweep has taken is harmless.
    method Unregister(session: Id)
      modifies this`active
      ensures active == old(active) - {session}
      ensures forall s {:trigger Enabled(s, Action.Unregister(session))} ::
                old(Shows(s)) && Enabled(s, Action.Unregister(session)) ==>
                Shows(Apply(s, Action.Unregister(session)))
    {
      active := active - {session};
    }

    // The locked part of `close_active_exec_sessions`.
    method TakeAll() returns (pending: set<Id>)
      modifies this`active
      ensures pending == old(active) && active == {}
      ensures forall s, w {:trigger Enabled(s, Snapshot(w))} ::
                old(Shows(s)) && Enabled(s, Snapshot(w)) ==>
                Shows(Apply(s, Snapshot(w))) && Apply(s, Snapshot(w)).sweeps[w] == Closing(pending, {})
    {
      pending := active;
      active := {};
    }

    // `stream_logs`: the session runs with a slot of its own, and whatever happens the slot
    // table ends as it began.
    method StreamLogs(ip: Ip, handshake: bool, cap: int) returns (ending: Ending)
      requires Valid()
      modifies this
      ensures Valid() && active == old(active)
      ensures forall other :: Get(connections, other) == old(Get(connections, other))
      ensures ending == if !handshake then Handshake
                        else if old(Get(connections, ip)) >= cap then CapReached
                        else Ran(old(Get(connections, ip)) + 1, old(active))
    {
      if !handshake {
        return Handshake;
      }
      var ok := Acquire(ip, cap);
      if !ok {
        return CapReached;
      }
      ending := Ran(Get(connections, ip), active);
      Release(ip);
    }

    // `exec_shell`: `before` and `inside` are its two reads of PROFILE.  The session runs
    // with a slot and registered; the table and the registry end as they began on all five
    // ways out.
    method ExecShell(session: Id, ip: Ip, handshake: bool, cap: int, before: bool, inside: bool)
      returns (ending: Ending)
      requires Valid() && session !in active
      modifies this
      ensures Valid() && active == old(active)
      ensures forall other :: Get(connections, other) == old(Get(connections, other))
      ensures ending == if !handshake then Handshake
                        else if before then ReviewerMode
                        else if old(Get(connections, ip)) >= cap then CapReached
                        else if inside then ReviewerMode
                        else Ran(old(Get(connections, ip)) + 1, old(active) + {session})
    {
      if !handshake {
        return Handshake;
      }
      if before {
        return ReviewerMode;
      }
      var acquired := Acquire(ip, cap);
      if !acquired {
        return CapReached;
      }
      var registered := TryRegister(session, inside);
      if !registered {
        Release(ip);
        return ReviewerMode;
      }
      ending := Ran(Get(connections, ip), active);
      Unregister(session);
      Release(ip);
    }
  }
}
