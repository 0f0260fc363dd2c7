/** The request handlers themselves.  Each checks and assigns step by step, leaves the
    configuration that module SetupLifecycle reasons about, and keeps the token well formed
    and what the environment supplied as it is. */
module SetupServer {
  import opened Text
  import opened Lockout
  import opened SetupLifecycle

  class Server {
    const fromEnv: bool
    const bootProfile: string
    const policy: Policy
    var token: string
    var dockerHost: string
    var registries: seq<string>
    var windowStart: real
    var failures: Table
    var specs: map<string, Spec>
    var values: map<string, string>

    function State(): Config reads this {
      Config(fromEnv, token, dockerHost, registries, bootProfile, windowStart, failures, Registry(specs, values))
    }

    // Unless the environment supplies it, the token is empty or well formed.
    ghost predicate Valid() reads this { fromEnv || TokenOk(token) }

    constructor (c: Config, policy: Policy)
      requires c.fromEnv || TokenOk(c.token)
      ensures Valid() && State() == c && this.policy == policy
    {
      fromEnv, bootProfile, this.policy := c.fromEnv, c.bootProfile, policy;
      token, dockerHost, registries := c.token, c.dockerHost, c.registries;
      windowStart, failures, specs, values := c.windowStart, c.failures, c.knobs.specs, c.knobs.values;
    }

    // `_fail`
    method Fail(ip: Ip, now: real)
      modifies this`failures
      ensures failures == RecordFailure(old(failures), ip, now)
    {
      var count := if ip in failures then failures[ip].count else 0;
      failures := failures[ip := Entry(count + 1, now)];
    }

    // `_enforce_lockout`; None lets the attempt through.
    method EnforceLockout(ip: Ip, now: real, limits: Knobs) returns (refused: Option<Response>)
      modifies this`failures
      ensures refused == if Locked(old(failures), ip, now, limits) then Some(SetupLocked) else None
      ensures failures == Evict(old(failures), ip, now, limits)
    {
      if ip !in failures {
        return None;
      }
      var Entry(count, last) := failures[ip];
      if count >= limits.maxAttempts && now - last < limits.secs {
        return Some(SetupLocked);
      }
      if now - last >= limits.secs {
        failures := failures - {ip};
      }
      return None;
    }

    // `_validate_api_token`
    method ValidateApiToken(raw: string, ip: Ip, now: real) returns (r: Result<string, Response>)
      modifies this`failures
      ensures r == ValidateToken(raw)
      ensures r.Ok? ==> r.value == Strip(raw) && r.value != "" && TokenOk(r.value)
      ensures failures == if r.Err? then RecordFailure(old(failures), ip, now) else old(failures)
    {
      var stripped := Strip(raw);
      if |stripped| < MIN_TOKEN_LENGTH {
        Fail(ip, now);
        return Err(TokenTooShort);
      }
      if |stripped| > MAX_TOKEN_LENGTH {
        Fail(ip, now);
        return Err(TokenTooLong);
      }
      if !MatchesTokenPattern(stripped) {
        Fail(ip, now);
        return Err(TokenBadCharset);
      }
      StrippedMatchIsAllowed(raw);
      return Ok(stripped);
    }

    // `_apply_setup`
    method ApplySetup(host: string, newToken: string, allowed: string)
      requires TokenOk(newToken)
      modifies this
      ensures Valid() && (old(registries) != [] ==> registries != [])
      ensures State() == old(State()).(token := newToken, dockerHost := host,
                registries := if ParseRegistries(allowed) != [] then ParseRegistries(allowed) else old(registries))
    {
      token := newToken;
      dockerHost := host;
      var newRegistries := ParseRegistries(allowed);
      if newRegistries != [] {
        registries := newRegistries;
      }
    }

    method DoSetup(now: real, ip: Ip, host: string, hostOk: bool, apiToken: string, allowed: string,
                   window: real, limits: Knobs)
      returns (resp: Response)
      requires Valid()
      modifies this
      ensures Valid() && Kept(old(State()), State())
      // Exactly when setup succeeds, and what it then leaves.
      ensures resp.Done? <==>
                && !fromEnv && old(token) == "" && now - old(windowStart) <= window
                && (ip in old(failures) ==>
                      old(failures)[ip].count < limits.maxAttempts || now - old(failures)[ip].last >= limits.secs)
                && 16 <= |Strip(apiToken)| <= 512 && AllAllowed(Strip(apiToken)) && host != "" && hostOk
      ensures resp.Done? ==>
                && token == Strip(apiToken) && dockerHost == Strip(host) && failures == old(failures) - {ip}
                && registries == if ParseRegistries(allowed) != [] then ParseRegistries(allowed) else old(registries)
      ensures !resp.Done? ==> State() == old(State()).(failures := failures)
      ensures (State(), resp) ==
              AfterSetup(old(State()), Setup(now, ip, host, hostOk, apiToken, allowed, window, limits))
    {
      BlankStrips(token);
      if GateCloses(State()) {
        return ReviewerReadOnly;
      }
      var refused := EnforceLockout(ip, now, limits);
      if refused.Some? {
        return refused.value;
      }
      if now - windowStart > window {
        return WindowExpired;
      }
      if fromEnv {
        return EnvManaged;
      }
      if token != "" {
        return AlreadyDone;
      }
      if MatchesTokenPattern(Strip(apiToken)) { StrippedMatchIsAllowed(apiToken); }
      var checked := ValidateApiToken(apiToken, ip, now);
      if checked.Err? {
        return checked.error;
      }
      if host == "" || !hostOk {
        Fail(ip, now);
        return BadDockerHost;
      }
      failures := failures - {ip};
      ApplySetup(Strip(host), checked.value, allowed);
      return Done;
    }

    method RotateToken(authorized: bool, newToken: string) returns (resp: Response)
      requires Valid()
      modifies this`token
      ensures Valid() && Kept(old(State()), State())
      ensures resp.Done? <==>
                && authorized && !fromEnv && (Profile(old(State())) != "reviewer" || AllSpace(old(token)))
                && 16 <= |Strip(newToken)| && AllAllowed(Strip(newToken)) && Strip(newToken) != old(token)
      ensures token == if resp.Done? then Strip(newToken) else old(token)
      ensures (State(), resp) == AfterRotate(old(State()), Rotate(authorized, newToken))
    {
      if !authorized {
        return Unauthorized;
      }
      BlankStrips(token);
      if GateCloses(State()) {
        return ReviewerReadOnly;
      }
      if fromEnv {
        return EnvManaged;
      }
      var stripped := Strip(newToken);
      if |stripped| < MIN_TOKEN_LENGTH {
        return TokenTooShort;
      }
      if MatchesTokenPattern(stripped) { StrippedMatchIsAllowed(newToken); }
      if !MatchesTokenPattern(stripped) {
        return TokenBadCharset;
      }
      if token == stripped {
        return TokenUnchanged;
      }
      StrippedMatchIsAllowed(newToken);
      token := Strip(stripped);
      return Done;
    }

    method ResetConfiguration(authorized: bool, now: real) returns (resp: Response)
      requires Valid()
      modifies this
      ensures Valid() && Kept(old(State()), State())
      ensures resp.Done? <==> authorized && !fromEnv
      ensures resp.Done? ==>
                && token == "" && dockerHost == "" && registries == [] && failures == map[] && windowStart == now
                && Profile(State()) == bootProfile && specs == old(specs)
      ensures !resp.Done? ==> State() == old(State())
      ensures (State(), resp) == AfterReset(old(State()), ResetConfig(authorized, now))
    {
      if !authorized {
        return Unauthorized;
      }
      if fromEnv {
        return EnvManaged;
      }
      token := "";
      dockerHost := "";
      registries := [];
      windowStart := now;
      failures := map[];
      values := values["PROFILE" := bootProfile];
      return Done;
    }

    // `update_config_knob`: the checks come in this order.
    method UpdateKnob(authorized: bool, name: string, parsed: Option<string>) returns (resp: Response)
      requires Valid()
      modifies this
      ensures Valid() && Kept(old(State()), State())
      ensures resp.Done? ==>
                && name in old(specs) && !LockedKnob(old(State()), name, policy)
                && parsed.Some? && values == old(values)[name := parsed.value]
                && State() == old(State()).(knobs := State().knobs)
                && forall other :: other in old(specs) && other != name ==> SameKnob(old(State()), State(), other)
      ensures !resp.Done? ==> State() == old(State())
      ensures (State(), resp) == AfterEdit(old(State()), EditKnob(authorized, name, parsed), policy)
    {
      if !authorized {
        return Unauthorized;
      }
      if GateCloses(State()) {
        return ReviewerReadOnly;
      }
      if !KnobName(name) {
        return BadValue;
      }
      if name !in specs || !specs[name].expose {
        return KnobNotFound;
      }
      if specs[name].secret {
        return KnobLocked;
      }
      if specs[name].source == Env {
        return KnobLocked;
      }
      if name in policy.security {
        return KnobLocked;
      }
      if name !in policy.live {
        return KnobLocked;
      }
      if parsed.None? {
        return BadValue;
      }
      values := values[name := parsed.value];
      specs := specs[name := specs[name].(source := Runtime)];
      return Done;
    }

    method EnterReviewerMode(authorized: bool) returns (resp: Response)
      requires Valid()
      modifies this
      ensures Valid() && Kept(old(State()), State())
      ensures resp.Done? <==> authorized && (Profile(old(State())) != "reviewer" || AllSpace(old(token)))
      ensures State() == if resp.Done? then old(State()).(knobs := Registry(specs, old(values)["PROFILE" := "reviewer"]))
                         else old(State())
      ensures specs == old(specs)
      ensures (State(), resp) == AfterEnterReviewer(old(State()), EnterReviewer(authorized))
    {
      if !authorized {
        return Unauthorized;
      }
      BlankStrips(token);
      if GateCloses(State()) {
        return ReviewerReadOnly;
      }
      values := values["PROFILE" := REVIEWER];
      return Done;
    }
  }
}
