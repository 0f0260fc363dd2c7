/** The WebSocket handshake of skiff/auth.py, which ties the failure counter, the session
    cache and the token that the keepalive checks later. */
module WsAuth {
  import opened Text
  import Lockout
  import SessionCache

  const PREFIX := "AUTH "

  datatype Outcome = Refused | Malformed | WrongToken | SessionExpired | Accepted

  // `_ws_receive_token`: None is a client that sent nothing usable in time.
  function TokenIn(message: Option<string>): string {
    if message.Some? && PREFIX <= message.value then message.value[|PREFIX|..] else []
  }

  lemma TokenInMeans(message: Option<string>, server: string)
    requires server != []
    ensures TokenIn(message) == server <==> message == Some("AUTH " + server)
  {
    if message.Some? && PREFIX <= message.value { assert message.value == PREFIX + TokenIn(message); }
  }

  // The times at which the lockout check, the failure record and the session check look at
  // the clock.
  datatype Times = Times(checked: real, failed: real, used: real)

  // What a handshake against a configured server comes to.
  function Verdict(failures: Lockout.Table, ages: SessionCache.Ages, server: string, ip: Lockout.Ip, token: string,
                   at: Times, limits: Lockout.Knobs, lifetimes: SessionCache.Knobs,
                   keyOf: string -> SessionCache.Key): Outcome
  {
    if Lockout.Locked(failures, ip, at.checked, limits) then Refused
    else if token == [] then Malformed
    else if token != server then WrongToken
    else if SessionCache.Expired(ages, keyOf(token), at.used, lifetimes) then SessionExpired
    else Accepted
  }

  // Exactly the right first message gets in, from an address that is not locked out, with a
  // session inside both its limits.
  ghost predicate GetsIn(failures: Lockout.Table, ages: SessionCache.Ages, server: string, ip: Lockout.Ip,
                         message: Option<string>, at: Times, limits: Lockout.Knobs, lifetimes: SessionCache.Knobs,
                         key: SessionCache.Key)
  {
    && message == Some("AUTH " + server)
    && (ip in failures ==> failures[ip].count < limits.maxAttempts || at.checked - failures[ip].last >= limits.secs)
    && (key in ages.first && key in ages.last ==>
          at.used - ages.first[key] <= lifetimes.abs && at.used - ages.last[key] <= lifetimes.idle)
  }

  lemma AcceptedMeans(failures: Lockout.Table, ages: SessionCache.Ages, server: string, ip: Lockout.Ip,
                      message: Option<string>, at: Times, limits: Lockout.Knobs, lifetimes: SessionCache.Knobs,
                      keyOf: string -> SessionCache.Key)
    requires ages.first.Keys == ages.last.Keys
    ensures server != [] ==>
              (Verdict(failures, ages, server, ip, TokenIn(message), at, limits, lifetimes, keyOf) == Accepted <==>
               GetsIn(failures, ages, server, ip, message, at, limits, lifetimes, keyOf(server)))
  {
    if server != [] { TokenInMeans(message, server); }
  }

  // The failure table after it.  A malformed first message counts like a wrong token; an
  // expired session does not count, but does not clear the counter either.
  function Recorded(failures: Lockout.Table, verdict: Outcome, ip: Lockout.Ip, at: Times, limits: Lockout.Knobs)
    : Lockout.Table
  {
    var checked := Lockout.Evict(failures, ip, at.checked, limits);
    match verdict
    case Refused => checked
    case SessionExpired => checked
    case Malformed => Lockout.RecordFailure(checked, ip, at.failed)
    case WrongToken => Lockout.RecordFailure(checked, ip, at.failed)
    case Accepted => checked - {ip}
  }

  // A locked address leaves its entry as it is, and getting in clears it; any other message
  // than the right one adds one failure to those of the last lockout period.
  lemma RecordedMeans(failures: Lockout.Table, ages: SessionCache.Ages, server: string, ip: Lockout.Ip,
                      message: Option<string>, at: Times, limits: Lockout.Knobs, lifetimes: SessionCache.Knobs,
                      keyOf: string -> SessionCache.Key)
    requires server != []
    ensures var verdict := Verdict(failures, ages, server, ip, TokenIn(message), at, limits, lifetimes, keyOf);
            var after := Recorded(failures, verdict, ip, at, limits);
            var recent := ip in failures && at.checked - failures[ip].last < limits.secs;
            var locked := recent && failures[ip].count >= limits.maxAttempts;
            && (locked ==> after == failures)
            && (verdict.Accepted? ==> after == failures - {ip})
            && (!locked && message != Some("AUTH " + server) ==>
                  after == failures[ip := Lockout.Entry((if recent then failures[ip].count else 0) + 1, at.failed)])
  {
    TokenInMeans(message, server);
  }

  // `_validate_ws_token_from_message`; `bound` is the token left on the socket.
  method Validate(counter: Lockout.Counter, sessions: SessionCache.Cache, server: string, ip: Lockout.Ip,
                  message: Option<string>, at: Times, keyOf: string -> SessionCache.Key)
    returns (ok: bool, bound: string, ghost victim: SessionCache.Key)
    requires sessions.Valid()
    modifies counter, sessions
    ensures sessions.Valid()
    ensures server != [] ==>
              (ok <==> GetsIn(old(counter.failures), old(sessions.Contents()), server, ip, message, at,
                              counter.knobs, sessions.knobs, keyOf(server)))
    // Without a configured token everyone gets in, and the socket carries none.
    ensures server == [] ==>
              ok && bound == [] && counter.failures == old(counter.failures)
              && sessions.Contents() == old(sessions.Contents())
    ensures server != [] ==>
              var verdict := Verdict(old(counter.failures), old(sessions.Contents()), server, ip, TokenIn(message), at,
                                     counter.knobs, sessions.knobs, keyOf);
              && (ok <==> verdict.Accepted?)
              && bound == (if ok then server else [])
              && counter.failures == Recorded(old(counter.failures), verdict, ip, at, counter.knobs)
              // Only the right token reaches the session cache, where it is checked like any
              // use of its key; an expired one leaves the cache as it was.
              && (!verdict.Accepted? ==> sessions.Contents() == old(sessions.Contents()))
              && (verdict.Accepted? ==>
                    sessions.Contents() ==
                    SessionCache.AfterCheck(old(sessions.Contents()), keyOf(server), at.used, victim, sessions.knobs))
              && (verdict.Accepted? && keyOf(server) !in old(sessions.first)
                  && SessionCache.Full(old(sessions.Contents()), sessions.knobs) ==>
                    SessionCache.Oldest(old(sessions.first), victim))
  {
    bound, victim := [], keyOf(server);
    AcceptedMeans(counter.failures, sessions.Contents(), server, ip, message, at, counter.knobs, sessions.knobs, keyOf);
    if server == [] {
      return true, bound, victim;
    }
    var locked := counter.Check(ip, at.checked);
    if locked {
      return false, bound, victim;
    }
    var token := TokenIn(message);
    if token == [] {
      var _ := counter.Fail(ip, at.failed);
      return false, bound, victim;
    }
    if token != server {
      var _ := counter.Fail(ip, at.failed);
      return false, bound, victim;
    }
    var alive;
    alive, victim := sessions.CheckAge(keyOf(token), at.used);
    if !alive {
      return false, bound, victim;
    }
    counter.Clear(ip);
    return true, token, victim;
  }
}
