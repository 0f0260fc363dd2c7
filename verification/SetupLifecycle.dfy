/** Configuration state and the requests that change it, taken one at a time: setup,
    token rotation and reset (skiff/routers/setup.py), knob edits and the reviewer switch
    (skiff/routers/system.py), behind the reviewer gate of skiff/secure.py.

    Whether the caller's bearer token is accepted, whether a Docker host URL is well
    formed and what a knob's validator returns are parameters of a request. */
module SetupLifecycle {
  import opened Text
  import opened Lockout

  const MIN_TOKEN_LENGTH := 16
  const MAX_TOKEN_LENGTH := 512
  const REVIEWER := "reviewer"

  datatype Source = Env | Boot | Runtime

  datatype Spec = Spec(expose: bool, secret: bool, source: Source)

  // The knob registry and the module attributes; PROFILE is one of the attributes.
  datatype Registry = Registry(specs: map<string, Spec>, values: map<string, string>)

  // `_SECURITY_READONLY` and `_LIVE_EDITABLE`
  datatype Policy = Policy(security: set<string>, live: set<string>)

  datatype Config = Config(
    fromEnv: bool,
    token: string,
    dockerHost: string,
    registries: seq<string>,
    bootProfile: string,
    windowStart: real,
    failures: Table,
    knobs: Registry)

  datatype Request =
    | Setup(now: real, ip: Ip, host: string, hostOk: bool, newToken: string, allowed: string,
            window: real, limits: Knobs)
    | Rotate(authorized: bool, newToken: string)
    | ResetConfig(authorized: bool, now: real)
    | EditKnob(authorized: bool, name: string, parsed: Option<string>)
    | EnterReviewer(authorized: bool)

  datatype Response =
    | Done
    | Unauthorized | ReviewerReadOnly | SetupLocked | WindowExpired | EnvManaged | AlreadyDone
    | TokenTooShort | TokenTooLong | TokenBadCharset | BadDockerHost | TokenUnchanged
    | KnobNotFound | KnobLocked | BadValue

  function Profile(c: Config): string {
    if "PROFILE" in c.knobs.values then c.knobs.values["PROFILE"] else ""
  }

  // ---------------------------------------------------------------- tokens

  // The characters of token68, section 2.1 of RFC 7235.
  predicate Allowed(c: char) {
    'A' <= c <= 'Z' || 'a' <= c <= 'z' || '0' <= c <= '9' || c in "._~+/=-"
  }

  predicate AllAllowed(s: string) { forall i :: 0 <= i < |s| ==> Allowed(s[i]) }

  // `_TOKEN_ALLOWED_RE.match`: the closing `$` also matches before a final newline.
  predicate MatchesTokenPattern(s: string) {
    (s != [] && AllAllowed(s))
    || (|s| > 1 && s[|s| - 1] == '\n' && AllAllowed(s[..|s| - 1]))
  }

  function ValidateToken(raw: string): Result<string, Response> {
    var stripped := Strip(raw);
    if |stripped| < MIN_TOKEN_LENGTH then Err(TokenTooShort)
    else if |stripped| > MAX_TOKEN_LENGTH then Err(TokenTooLong)
    else if !MatchesTokenPattern(stripped) then Err(TokenBadCharset)
    else Ok(stripped)
  }

  // Which tokens are accepted, by their length and characters without the surrounding white
  // space, and which error the others get.
  lemma TokenMeans(raw: string)
    ensures var r, t := ValidateToken(raw), Strip(raw);
            && (r == Err(TokenTooShort) <==> |t| < 16)
            && (r == Err(TokenTooLong) <==> |t| > 512)
            && (r == Err(TokenBadCharset) <==> 16 <= |t| <= 512 && exists i :: 0 <= i < |t| && !Allowed(t[i]))
            && (r.Ok? ==> r.value == t)
            && (r.Ok? <==> 16 <= |t| <= 512 && forall i :: 0 <= i < |t| ==> Allowed(t[i]))
  {
    if MatchesTokenPattern(Strip(raw)) { StrippedMatchIsAllowed(raw); }
  }

  // Empty, or a stripped string of at least 16 characters of the accepted alphabet.
  predicate TokenOk(t: string) {
    t == "" || (|t| >= MIN_TOKEN_LENGTH && AllAllowed(t) && Strip(t) == t)
  }

  // Stripping closes the gap the `$` leaves.
  lemma StrippedMatchIsAllowed(raw: string)
    requires MatchesTokenPattern(Strip(raw))
    ensures AllAllowed(Strip(raw)) && Strip(Strip(raw)) == Strip(raw)
  {
    StripIsStripped(raw);
    StripIdempotent(raw);
  }

  // Without the strip the pattern would let a trailing newline through.
  lemma PatternAloneAcceptsNewline()
    ensures MatchesTokenPattern("aaaaaaaaaaaaaaaa\n") && !AllAllowed("aaaaaaaaaaaaaaaa\n")
  {
    assert "aaaaaaaaaaaaaaaa\n"[..16] == "aaaaaaaaaaaaaaaa";
    assert !Allowed("aaaaaaaaaaaaaaaa\n"[16]);
  }

  // ---------------------------------------------------------------- requests

  // `[r.strip() for r in allowed.split(",") if r.strip()]`
  function ParseRegistries(allowed: string): seq<string> {
    NonBlank(Split(allowed, ','))
  }

  function NonBlank(parts: seq<string>): seq<string> {
    if parts == [] then []
    else (if Strip(parts[0]) != "" then [Strip(parts[0])] else []) + NonBlank(parts[1..])
  }

  lemma NonBlankStep(part: string, parts: seq<string>)
    ensures NonBlank([part] + parts) == (if Strip(part) != "" then [Strip(part)] else []) + NonBlank(parts)
  {
    assert ([part] + parts)[1..] == parts;
  }

  // The list is the stripped text between the commas, without what is blank.
  lemma RegistriesMean(first: string, others: string)
    requires ',' !in first
    ensures ParseRegistries(first) == if AllSpace(first) then [] else [Strip(first)]
    ensures ParseRegistries(first + "," + others) ==
            (if AllSpace(first) then [] else [Strip(first)]) + ParseRegistries(others)
  {
    SplitFirst(first, others, ',');
    BlankStrips(first);
    assert first + "," + others == first + [','] + others;
    NonBlankStep(first, []);
    NonBlankStep(first, Split(others, ','));
    assert [first] + [] == [first];
  }

  predicate GateCloses(c: Config) {
    Profile(c) == REVIEWER && Strip(c.token) != ""
  }

  function FailOnce(c: Config, r: Request): Config
    requires r.Setup?
  {
    c.(failures := RecordFailure(c.failures, r.ip, r.now))
  }

  function AfterSetup(c: Config, r: Request): (Config, Response)
    requires r.Setup?
  {
    if GateCloses(c) then (c, ReviewerReadOnly)
    else if Locked(c.failures, r.ip, r.now, r.limits) then (c, SetupLocked)
    else
      var c := c.(failures := Evict(c.failures, r.ip, r.now, r.limits));
      if r.now - c.windowStart > r.window then (c, WindowExpired)
      else if c.fromEnv then (c, EnvManaged)
      else if c.token != "" then (c, AlreadyDone)
      else match ValidateToken(r.newToken)
           case Err(e) => (FailOnce(c, r), e)
           case Ok(token) =>
             if r.host == "" || !r.hostOk then (FailOnce(c, r), BadDockerHost)
             else
               var parsed := ParseRegistries(r.allowed);
               (c.(failures := c.failures - {r.ip}, token := token, dockerHost := Strip(r.host),
                   registries := if parsed != [] then parsed else c.registries), Done)
  }

  function AfterRotate(c: Config, r: Request): (Config, Response)
    requires r.Rotate?
  {
    if !r.authorized then (c, Unauthorized)
    else if GateCloses(c) then (c, ReviewerReadOnly)
    else if c.fromEnv then (c, EnvManaged)
    else
      var token := Strip(r.newToken);
      if |token| < MIN_TOKEN_LENGTH then (c, TokenTooShort)
      else if !MatchesTokenPattern(token) then (c, TokenBadCharset)
      else if c.token == token then (c, TokenUnchanged)
      else (c.(token := token), Done)
  }

  function SetProfile(knobs: Registry, p: string): Registry {
    knobs.(values := knobs.values["PROFILE" := p])
  }

  function AfterReset(c: Config, r: Request): (Config, Response)
    requires r.ResetConfig?
  {
    if !r.authorized then (c, Unauthorized)
    else if c.fromEnv then (c, EnvManaged)
    else (c.(token := "", dockerHost := "", registries := [], windowStart := r.now, failures := map[],
             knobs := SetProfile(c.knobs, c.bootProfile)), Done)
  }

  predicate KnobName(s: string) {
    s != [] && 'A' <= s[0] <= 'Z' &&
    forall i :: 1 <= i < |s| ==> 'A' <= s[i] <= 'Z' || '0' <= s[i] <= '9' || s[i] == '_'
  }

  // The knob may not be edited: secret, set by the environment, policy-locked or not live.
  predicate LockedKnob(c: Config, name: string, p: Policy)
    requires name in c.knobs.specs
  {
    || c.knobs.specs[name].secret
    || c.knobs.specs[name].source == Env
    || name in p.security
    || name !in p.live
  }

  function AfterEdit(c: Config, r: Request, p: Policy): (Config, Response)
    requires r.EditKnob?
  {
    if !r.authorized then (c, Unauthorized)
    else if GateCloses(c) then (c, ReviewerReadOnly)
    else if !KnobName(r.name) then (c, BadValue)
    else if r.name !in c.knobs.specs || !c.knobs.specs[r.name].expose then (c, KnobNotFound)
    else if LockedKnob(c, r.name, p) then (c, KnobLocked)
    else if r.parsed.None? then (c, BadValue)
    else (c.(knobs := Registry(c.knobs.specs[r.name := c.knobs.specs[r.name].(source := Runtime)],
                               c.knobs.values[r.name := r.parsed.value])), Done)
  }

  function AfterEnterReviewer(c: Config, r: Request): (Config, Response)
    requires r.EnterReviewer?
  {
    if !r.authorized then (c, Unauthorized)
    else if GateCloses(c) then (c, ReviewerReadOnly)
    else (c.(knobs := SetProfile(c.knobs, REVIEWER)), Done)
  }

  function After(c: Config, r: Request, p: Policy): (Config, Response) {
    match r
    case Setup(_, _, _, _, _, _, _, _) => AfterSetup(c, r)
    case Rotate(_, _) => AfterRotate(c, r)
    case ResetConfig(_, _) => AfterReset(c, r)
    case EditKnob(_, _, _) => AfterEdit(c, r, p)
    case EnterReviewer(_) => AfterEnterReviewer(c, r)
  }

  function Run(c: Config, rs: seq<Request>, p: Policy): Config {
    if rs == [] then c else After(Run(c, rs[..|rs| - 1], p), rs[|rs| - 1], p).0
  }

  // ---------------------------------------------------------------- whole runs

  predicate Kept(c: Config, d: Config) {
    d.fromEnv == c.fromEnv && d.bootProfile == c.bootProfile &&
    (c.fromEnv ==> d.token == c.token && d.dockerHost == c.dockerHost && d.registries == c.registries)
  }

  lemma StepKeepsEnvironment(c: Config, r: Request, p: Policy)
    ensures Kept(c, After(c, r, p).0)
  {
  }

  // A server configured through the environment keeps its token, Docker host and
  // registry list through any requests.
  lemma {:induction false} EnvironmentIsImmutable(c: Config, rs: seq<Request>, p: Policy)
    ensures Kept(c, Run(c, rs, p))
  {
    if rs != [] {
      EnvironmentIsImmutable(c, rs[..|rs| - 1], p);
      StepKeepsEnvironment(Run(c, rs[..|rs| - 1], p), rs[|rs| - 1], p);
    }
  }

  lemma SetupKeepsToken(c: Config, r: Request)
    requires TokenOk(c.token) && r.Setup?
    ensures TokenOk(AfterSetup(c, r).0.token)
  {
    if MatchesTokenPattern(Strip(r.newToken)) { StrippedMatchIsAllowed(r.newToken); }
  }

  lemma RotateKeepsToken(c: Config, r: Request)
    requires TokenOk(c.token) && r.Rotate?
    ensures TokenOk(AfterRotate(c, r).0.token)
  {
    if MatchesTokenPattern(Strip(r.newToken)) { StrippedMatchIsAllowed(r.newToken); }
  }

  lemma OthersKeepToken(c: Config, r: Request, p: Policy)
    requires !r.Setup? && !r.Rotate?
    ensures After(c, r, p).0.token in {c.token, ""}
  {
  }

  lemma StepKeepsToken(c: Config, r: Request, p: Policy)
    requires TokenOk(c.token)
    ensures TokenOk(After(c, r, p).0.token)
  {
    if r.Setup? {
      SetupKeepsToken(c, r);
    } else if r.Rotate? {
      RotateKeepsToken(c, r);
    } else {
      OthersKeepToken(c, r, p);
    }
  }

  // From an unconfigured server on, the token is always empty or well formed.
  lemma {:induction false} TokenAlwaysWellFormed(c: Config, rs: seq<Request>, p: Policy)
    requires TokenOk(c.token)
    ensures TokenOk(Run(c, rs, p).token)
  {
    if rs != [] {
      TokenAlwaysWellFormed(c, rs[..|rs| - 1], p);
      StepKeepsToken(Run(c, rs[..|rs| - 1], p), rs[|rs| - 1], p);
    }
  }

  // Setup succeeds only on an unconfigured server inside the window; otherwise it
  // changes the failure counters and nothing else.  It never empties the registry list.
  lemma SetupNeverOverwrites(c: Config, r: Request)
    requires r.Setup?
    ensures var (d, resp) := AfterSetup(c, r);
            && (resp.Done? ==> c.token == "" && !c.fromEnv && r.now - c.windowStart <= r.window && d.token != "")
            && (!resp.Done? ==> d == c.(failures := d.failures))
            && (c.registries != [] ==> d.registries != [])
            && d.knobs == c.knobs
  {
  }

  // A setup attempt adds at most one failure, and only when its input was at fault.
  lemma SetupFailsAtMostOnce(c: Config, r: Request)
    requires r.Setup?
    ensures var (d, resp) := AfterSetup(c, r);
            && CountOf(d.failures, r.ip) <= CountOf(c.failures, r.ip) + 1
            && (CountOf(d.failures, r.ip) > CountOf(c.failures, r.ip) ==>
                  resp in {TokenTooShort, TokenTooLong, TokenBadCharset, BadDockerHost})
            && (resp.SetupLocked? <==> !GateCloses(c) && SetupRemaining(c.failures, r.ip, r.now, r.limits).Some?)
            && forall ip :: ip != r.ip ==> CountOf(d.failures, ip) == CountOf(c.failures, ip)
  {
  }

  // Bad input counts as one failure on top of those of the last lockout period; success
  // clears the address.
  lemma SetupCountsBadInput(c: Config, r: Request)
    requires r.Setup?
    ensures var (d, resp) := AfterSetup(c, r);
            var recent := r.ip in c.failures && r.now - c.failures[r.ip].last < r.limits.secs;
            && (resp in {TokenTooShort, TokenTooLong, TokenBadCharset, BadDockerHost} ==>
                  d.failures == c.failures[r.ip := Entry((if recent then c.failures[r.ip].count else 0) + 1, r.now)])
            && (resp.Done? ==> d.failures == c.failures - {r.ip})
  {
  }

  // A reset that this server carries out.
  predicate Resets(c: Config, r: Request) { r.ResetConfig? && r.authorized && !c.fromEnv }

  // No request but an accepted reset takes PROFILE out of reviewer, given that PROFILE
  // is among the policy-locked knobs.
  lemma {:induction false} ReviewerLeavesOnlyByReset(c: Config, rs: seq<Request>, p: Policy)
    requires "PROFILE" in p.security && Profile(c) == REVIEWER
    requires forall i :: 0 <= i < |rs| ==> !Resets(c, rs[i])
    ensures Profile(Run(c, rs, p)) == REVIEWER
  {
    if rs != [] {
      var before := rs[..|rs| - 1];
      ReviewerLeavesOnlyByReset(c, before, p);
      EnvironmentIsImmutable(c, before, p);
      ReviewerStep(Run(c, before, p), rs[|rs| - 1], p);
    }
  }

  lemma ReviewerStep(c: Config, r: Request, p: Policy)
    requires "PROFILE" in p.security && Profile(c) == REVIEWER && !Resets(c, r)
    ensures Profile(After(c, r, p).0) == REVIEWER
  {
  }

  // When a knob edit succeeds, and what it then changes.
  lemma EditSucceedsWhen(c: Config, r: Request, p: Policy)
    requires r.EditKnob?
    ensures AfterEdit(c, r, p).1 == Done <==>
              && r.authorized && (Profile(c) != "reviewer" || AllSpace(c.token))
              && KnobName(r.name) && r.name in c.knobs.specs && r.name in p.live && r.name !in p.security
              && (var spec := c.knobs.specs[r.name]; spec.expose && !spec.secret && spec.source != Env)
              && r.parsed.Some?
    ensures AfterEdit(c, r, p).1 == Done ==>
              AfterEdit(c, r, p).0 ==
              c.(knobs := Registry(c.knobs.specs[r.name := Spec(true, false, Runtime)],
                                   c.knobs.values[r.name := r.parsed.value]))
    ensures AfterEdit(c, r, p).1 != Done ==> AfterEdit(c, r, p).0 == c
  {
    BlankStrips(c.token);
  }

  // In reviewer mode with a token that is not blank every request but a reset is refused.
  lemma GateRefuses(c: Config, r: Request, p: Policy)
    requires !r.ResetConfig?
    ensures Profile(c) == "reviewer" && !AllSpace(c.token) ==>
              After(c, r, p) == (c, if !r.Setup? && !r.authorized then Unauthorized else ReviewerReadOnly)
    ensures After(c, r, p).1 == ReviewerReadOnly ==> Profile(c) == "reviewer" && !AllSpace(c.token)
  {
    BlankStrips(c.token);
  }

  // So nothing at all changes from then on until an accepted reset.
  lemma {:induction false} ReviewerFreezes(c: Config, rs: seq<Request>, p: Policy)
    requires Profile(c) == "reviewer" && !AllSpace(c.token)
    requires forall i :: 0 <= i < |rs| ==> !Resets(c, rs[i])
    ensures Run(c, rs, p) == c
  {
    if rs != [] {
      var r := rs[|rs| - 1];
      ReviewerFreezes(c, rs[..|rs| - 1], p);
      if !r.ResetConfig? { GateRefuses(c, r, p); }
    }
  }

  predicate SameKnob(c: Config, d: Config, name: string) {
    && name in c.knobs.specs && name in d.knobs.specs && d.knobs.specs[name] == c.knobs.specs[name]
    && (name in d.knobs.values <==> name in c.knobs.values)
    && (name in c.knobs.values ==> d.knobs.values[name] == c.knobs.values[name])
  }

  lemma LockedKnobStep(c: Config, r: Request, p: Policy, name: string)
    requires name in c.knobs.specs && name != "PROFILE"
    requires LockedKnob(c, name, p) || !c.knobs.specs[name].expose
    ensures name in After(c, r, p).0.knobs.specs && SameKnob(c, After(c, r, p).0, name)
  {
  }

  // Secret, environment-sourced, policy-locked, lifecycle and hidden knobs other than PROFILE,
  // which has an endpoint of its own, keep their value and their provenance through any
  // requests.
  lemma {:induction false} LockedKnobsNeverChange(c: Config, rs: seq<Request>, p: Policy, name: string)
    requires name in c.knobs.specs && name != "PROFILE"
    requires LockedKnob(c, name, p) || !c.knobs.specs[name].expose
    ensures SameKnob(c, Run(c, rs, p), name)
  {
    if rs != [] {
      LockedKnobsNeverChange(c, rs[..|rs| - 1], p, name);
      LockedKnobStep(Run(c, rs[..|rs| - 1], p), rs[|rs| - 1], p, name);
    }
  }

  // After an accepted reset the server can be set up again, whatever state it was in.
  lemma {:induction false} ResetThenSetup(c: Config, reset: Request, setup: Request, p: Policy)
    requires reset.ResetConfig? && reset.authorized && !c.fromEnv
    requires setup.Setup? && reset.now <= setup.now <= reset.now + setup.window
    requires ValidateToken(setup.newToken).Ok? && setup.host != "" && setup.hostOk
    ensures var d := Run(c, [reset, setup], p);
            && After(After(c, reset, p).0, setup, p).1 == Done
            && d.token == Strip(setup.newToken) && d.dockerHost == Strip(setup.host)
            && Profile(d) == c.bootProfile
  {
    assert [reset, setup][..1] == [reset] && [reset][..0] == [];
    assert Run(c, [reset], p) == After(Run(c, [], p), reset, p).0;
    StripShort();
  }

  lemma StripShort()
    ensures Strip("") == ""
  {
  }
}
