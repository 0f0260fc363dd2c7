# Verified model of skiff's control plane

skiff is a web console for a remote Docker engine. This project models the parts of its
server whose correctness rests on an argument rather than on one function body, and proves
that argument.

* **Concurrent state.** The undo queue, the exec-session registry with its reviewer sweep and
  per-address slots, the Docker client singleton, and `compose up` are transition systems over
  any number of threads and any interleaving. A `with lock:` block is one step; whatever the
  code does outside a lock is a step of its own. `IsRun` says what a run is, `Inv` is the
  invariant, `StepKeepsInv` and `RunKeepsInv` carry it through, and the lemmas after them are
  about whole runs. Fields called history are read by no step. Beside each of these modules
  stands the class itself, one call at a time (`UndoQueue`, `ExecRegistry`, `ClientCache`,
  `ComposeStore`).
* **Timed state.** The failure counters, the session-age cache, the WebSocket handshake and
  keepalive, and the life of the API token, as classes proved against functions on their
  state, with lemmas about sequences of calls.
* **Text and trees.** Redaction, the path-stripping loop, path templates, the linter's nesting
  rules and the `key=value` parsers, each against an independent description.
* **Fast forms against simple forms.** The tail read of the audit log against a read of the
  whole file, the volume index against the direct scan, and the read-only lockout probes
  against the enforcing checks.

What Docker, a socket, the disk or a validator answers is a parameter or part of an action, so
every lemma holds whatever they answer. Time is a number.

`dafny verify dfyconfig.toml` checks the project.

## Where the code and its comments differ

The model follows the code.

* `skiff/undo.py:184-188` says `op.fired` is set under the lock. It is set after the lock is
  released. The guard it protects is never taken all the same (`UndoProtocol.GuardNeverTaken`),
  because only one thread can pop an entry.
* The delay of the undo queue is fixed when the queue is built (`skiff/undo.py:54-56`), so
  editing `UNDO_DELAY_SECS` live does not reach it.
* `skiff/docker_client.py:118-122` speaks of a client within the ping TTL. What is within the
  TTL is the moment the ping was recorded, so the ping is older by as long as its thread took
  to record it (`ClientProtocol.FreshPingAge`), and the client is already closed exactly while
  another thread stands between closing and un-publishing it (`FreshIsClosedWhen`).
* `skiff/auth.py:347-351` says a rotation closes every live WebSocket. One that was opened while
  no token was configured stays (`Keepalive.RotationClosesWhen`).
* `_check_session_age` reads the clock before it takes the lock (`skiff/auth.py:71-72`), so an
  entry can be last seen before it was first seen (`SessionCache.OrderKeptIff`).
* `skiff/logging_setup.py:301-302` sorts by the length of the compiled pattern. A placeholder
  counts five characters, so it is tried before a shorter literal, and before one of five that
  is registered later (`AuditEvents.PlaceholderBeatsShortLiteral`). The literal's own path then
  gets the placeholder's event (`AuditEvents.LabelOfLiteralPath`).
* `skiff/logging_setup.py:276` and `skiff/routers/setup.py:177` end a pattern with `$`, which
  also accepts one newline at the end (`PathTemplate.PatternMeansSegments`,
  `SetupLifecycle.PatternAloneAcceptsNewline`).
* `skiff/validators.py:710` repeats the substitution until nothing changes. One pass is enough
  (`Sanitize.OnePassSuffices`).
* `tools/lint_antipatterns.py:719` says only the first `if` of an isinstance ladder is reported.
  A ladder of m arms, m at least 2, is reported m - 2 times (`LintNesting.LadderReportCount`).
* `skiff/routers/audit.py:75-78` speaks of parse errors only. A line that is JSON but no object
  can make the request fail, and so can any other exception of the decoder and an entry that
  cannot be rendered (`AuditTail.GetAuditLog`). An object with the one key `raw` counts as an
  error (`AuditTail.ParseErrorsAreFailuresAndRawObjects`).
* `skiff/routers/compose.py:275-278` says a failing up cleans up the directory it created. It
  does so if its first look found none. If a down takes the found directory away before the
  second look (`skiff/routers/compose.py:280`), the up makes it again and a rejected upload
  leaves it empty (`ComposeProtocol.DirectoryMadeAgain`, `RejectedUpCanLeaveEmptyDirectory`).
* `skiff/routers/compose.py:30-39` speaks of `compose_down` as serialised too. It does not take
  the lock, and a failing up keeps the file it found exactly if no down comes at the wrong time
  (`ComposeProtocol.FailedUpKeepsStoredFile`).

## Model

| member | source | states |
|---|---|---|
| UndoProtocol.StepKeepsInv | skiff/undo.py:61-219 | every step of every enqueue, timer, cancel and flush keeps the ownership invariant |
| UndoProtocol.RunKeepsInv | skiff/undo.py:61-219 | the ownership invariant holds in every reachable state |
| UndoProtocol.CallableStartsOnce | skiff/undo.py:96-219 | whichever threads race for an op, its callable is started at most once |
| UndoProtocol.CancelIsFinal | skiff/undo.py:144-153 | once a cancel is going to return True, the callable has not run and never will, and no other cancel of that token returns True |
| UndoProtocol.CancelledTimerStaysQuiet | skiff/undo.py:144-190 | a timer that a cancel or a flush tells to cancel before its delay has elapsed never gets to pop its op |
| UndoProtocol.Conservation | skiff/undo.py:83-219 | every token ever inserted is in exactly one of: pending, cancelled, taken by its timer, taken by a flush; keys of the queue are distinct |
| UndoProtocol.FlushesAreDisjoint | skiff/undo.py:178-180 | no op is in two flushes' snapshots or twice in one |
| UndoProtocol.GuardNeverTaken | skiff/undo.py:184-190 | the double-fire guard never skips an op, and no op still in the queue has fired |
| UndoProtocol.BatchIsSnapshot | skiff/undo.py:178-181 | a flush works through the queue as it stood when it took it |
| UndoProtocol.FlushCallsWholeSnapshot | skiff/undo.py:178-219 | a flush calls every op of its snapshot once, in insertion order, whatever the calls raise |
| UndoProtocol.DepthBound | skiff/undo.py:83-91 | the depth never exceeds the largest cap in force so far, though the cap is edited live |
| UndoProtocol.CapIsLatest | skiff/undo.py:83-91 | the cap in force is the one edited last |
| UndoProtocol.FailureCounter | skiff/undo.py:136-141 | the failure counter never runs ahead of the calls that raised something but NotFound, and equals their number when no thread is about to count one |
| UndoProtocol.TimerCallWasGated | skiff/undo.py:107-123 | a timer that is about to call its op has read a PROFILE other than reviewer |
| UndoProtocol.ReviewerStopsTimers | skiff/undo.py:103-116 | a timer that calls its op in reviewer mode read PROFILE before the switch |
| UndoProtocol.TimerCanCallInReviewerMode | skiff/undo.py:107-123 | a run in which that happens |
| UndoProtocol.FlushCallsInReviewerMode | skiff/undo.py:170-196 | a flush calls ops in reviewer mode, as it never reads PROFILE |
| UndoQueue.UndoQueue.constructor | skiff/undo.py:54-59 | the delay is the argument or the knob's value at that moment, and the queue starts empty |
| UndoQueue.UndoQueue.Enqueue | skiff/undo.py:61-94 | a token comes back, and is appended, exactly if the delay is positive and the depth below the cap |
| UndoQueue.UndoQueue.Pop | skiff/undo.py:98-99 | exactly the op with this token leaves the queue, if there is one |
| UndoQueue.UndoQueue.Fire | skiff/undo.py:96-142 | the op is called exactly if it was pending and PROFILE is not reviewer; only a raise other than NotFound is counted |
| UndoQueue.UndoQueue.Cancel | skiff/undo.py:144-153 | True exactly if the op was pending, which then leaves the queue |
| UndoQueue.UndoQueue.Depth | skiff/undo.py:155-158 | the number of pending tokens |
| UndoQueue.UndoQueue.FireAllNow | skiff/undo.py:170-219 | every pending op runs once, oldest first, all timers are cancelled, each raise is counted and the queue ends empty |
| UndoQueue.CancelKeepsOrder | skiff/undo.py:144-153 | cancelling takes one token out and leaves the others in their order |
| UndoQueue.CancelThenFlush | skiff/undo.py:144-219 | a flush after a cancel calls the other ops in their order and not the cancelled one |
| ExecProtocol.StepKeepsInv | skiff/routers/containers_ws.py:51-123 | every step of every handler, sweep, flip and reset keeps the registry and slot invariant |
| ExecProtocol.RunKeepsInv | skiff/routers/containers_ws.py:51-123 | that invariant holds in every reachable state |
| ExecProtocol.ResetRestoresBoot | skiff/routers/setup.py:643-650 | a reset sets PROFILE to its value at boot, which never changes, and a flip sets it to reviewer |
| ExecProtocol.ExecHandlerWasChecked | skiff/routers/containers_ws.py:518-526 | an exec handler that goes for a slot has read a PROFILE other than reviewer |
| ExecProtocol.SnapshotLatches | skiff/routers/containers_ws.py:109-111 | a sweep's snapshot in reviewer mode leaves nothing registered and nobody who can still register |
| ExecProtocol.LatchStays | skiff/routers/containers_ws.py:72-88 | only a reset that changes PROFILE undoes that |
| ExecProtocol.ReviewerLatch | skiff/routers/system.py:532-544 | after such a snapshot no exec session is registered in any later state until a reset changes PROFILE |
| ExecProtocol.LatchedSessionsAreSwept | skiff/routers/containers_ws.py:96-123 | an exec session that is then still open is on the list of a sweep that closes it |
| ExecProtocol.SweepClosesItsList | skiff/routers/containers_ws.py:108-123 | the list of a sweep is the registry as its snapshot took it; it closes sessions on that list only, and exactly those whose close was made |
| ExecProtocol.NoSessionIsLost | skiff/routers/containers_ws.py:72-123 | a session that ever registered is registered, swept or past its end |
| ExecProtocol.SlotAccounting | skiff/routers/containers_ws.py:51-69 | an address' counter is the number of its handlers between acquire and release, and the clamp at zero never changes a value |
| ExecProtocol.SlotBound | skiff/routers/containers_ws.py:60-64 | no address ever holds more slots than the largest cap in force so far |
| ExecProtocol.CapIsLatest | skiff/routers/containers_ws.py:60-64 | the cap in force is the one edited last |
| ExecProtocol.ReleasedAtMostOnce | skiff/routers/containers_ws.py:269-289 | a handler never releases twice |
| ExecProtocol.ReleasedOnEveryPath | skiff/routers/containers_ws.py:515-543 | a handler that got a slot has released it exactly once by the time it is over, refused registration included |
| ExecProtocol.NoSnapshotInsideRegister | skiff/routers/containers_ws.py:84-88 | no sweep takes its snapshot between the PROFILE read and the insertion of a registration |
| ExecProtocol.RegistersAfterFlipWhen | skiff/routers/containers_ws.py:84-88 | after a flip, until a reset changes PROFILE, the handler that finishes its registration registers exactly if at the flip it was inside the lock with an older PROFILE already read |
| ExecProtocol.OneRegistersAfterFlip | skiff/routers/containers_ws.py:84-88 | that handler holds the lock at the flip, so at most one session registers after it |
| ExecProtocol.FlipOutsideRegisterIsFinal | skiff/routers/system.py:532-543 | a flip while nobody is between the read and the insertion, which on the server's event loop is every flip, lets no session register after it |
| ExecProtocol.FlipAloneIsNotEnough | skiff/routers/containers_ws.py:84-88 | a run in which the flip, made from another thread, falls between the read and the insertion, and the session registers in reviewer mode with no snapshot in between |
| ExecRegistry.Registry.Acquire | skiff/routers/containers_ws.py:51-64 | a slot is taken exactly if the address is below the cap, and no other address changes; what it does under the lock is one step of the protocol |
| ExecRegistry.Registry.Release | skiff/routers/containers_ws.py:67-69 | one slot of this address is given back, never below zero; what it does under the lock is one step of the protocol |
| ExecRegistry.Registry.TryRegister | skiff/routers/containers_ws.py:72-88 | the session is added exactly if PROFILE is not reviewer; given the read, the insertion is one step of the protocol |
| ExecRegistry.Registry.Unregister | skiff/routers/containers_ws.py:91-93 | exactly this session leaves, if it is still there; what it does under the lock is one step of the protocol |
| ExecRegistry.Registry.TakeAll | skiff/routers/containers_ws.py:109-111 | a sweep takes the whole registry and leaves it empty; what it does under the lock is one step of the protocol |
| ExecRegistry.Registry.StreamLogs | skiff/routers/containers_ws.py:270-289 | the session runs with one more slot taken for its address, and on every way out the slot table is as before |
| ExecRegistry.Registry.ExecShell | skiff/routers/containers_ws.py:499-543 | the session runs with a slot and registered; on all five ways out slot table and registry are as before, and which way is taken |
| ClientProtocol.StepKeepsInv | skiff/docker_client.py:115-224 | every step of every thread keeps the invariant on the client globals |
| ClientProtocol.NoDirectReplacement | skiff/docker_client.py:176-181 | between two different installed clients the global was None |
| ClientProtocol.InstalledOnce | skiff/docker_client.py:176-181 | no client is installed twice |
| ClientProtocol.LoserClosesItsOwn | skiff/docker_client.py:182-188 | the thread that loses the publish race closes the client it built, which was never current, and returns the installed one |
| ClientProtocol.RecordedPingIsOfCurrent | skiff/docker_client.py:155-164 | while a client is installed, the recorded time follows a successful ping of that same client |
| ClientProtocol.LastPingWasRecorded | skiff/docker_client.py:162-179 | the recorded time is that of a step that recorded a ping of the installed client |
| ClientProtocol.FreshMeansRecentlyRecorded | skiff/docker_client.py:122-128 | phase 1 returns a client only if a ping of it was recorded less than the TTL ago, and how old that ping is |
| ClientProtocol.FreshPingAge | skiff/docker_client.py:122-179 | if no thread takes longer than d to record a ping, phase 1 returns only clients that answered one less than the TTL and d ago |
| ClientProtocol.LostWhenDropped | skiff/docker_client.py:167-190 | a client is lost (open, not current, not about to be published) exactly if a failed build dropped it while installed and open and nobody has closed it since |
| ClientProtocol.NoClientIsLost | skiff/docker_client.py:167-190 | in a whole run no client is ever lost exactly if no failed build finds an open client installed |
| ClientProtocol.OpenClientCanBeDropped | skiff/docker_client.py:170-175 | a run in which a failed build drops the open client another thread has just published |
| ClientProtocol.FreshClientMayBeLongUnpinged | skiff/docker_client.py:155-164 | a run in which phase 1 returns a client whose latest ping then lies 100 seconds back, with a TTL of 3 |
| ClientProtocol.FreshClientMayBeClosed | skiff/docker_client.py:131-142 | a run in which phase 1 returns a client that is closed at that moment |
| ClientProtocol.InstalledIsClosedWhen | skiff/docker_client.py:131-142 | in every reachable state the installed client is closed exactly if some thread stands between closing and un-publishing it |
| ClientProtocol.FreshIsClosedWhen | skiff/docker_client.py:122-142 | so phase 1 returns a closed client exactly then |
| ClientCache.Cache.CachedIfFresh | skiff/docker_client.py:115-128 | when the cached client is returned and when the backoff refuses; what it does under the lock is one step of the protocol |
| ClientCache.Cache.DiscardStale | skiff/docker_client.py:131-142 | the candidate is closed, and un-published only if still current; what it does under the lock is one step of the protocol |
| ClientCache.Cache.PingOrDiscard | skiff/docker_client.py:145-164 | the outcome and the new globals for no candidate, a live one and a dead one; what it does under the lock is one step of the protocol |
| ClientCache.Cache.BuildAndPublish | skiff/docker_client.py:167-190 | the outcome and the new globals for a failed build, a won and a lost race; what it does under the lock is one step of the protocol |
| ClientCache.Cache.GetClient | skiff/docker_client.py:193-209 | the three phases in order |
| ClientCache.Cache.Invalidate | skiff/docker_client.py:212-224 | the current client is closed and forgotten; what it does under the lock is one step of the protocol |
| Lockout.Counter.Check | skiff/auth.py:198-209 | the attempt is refused exactly in a lockout, and a stale entry goes |
| Lockout.Counter.Fail | skiff/auth.py:239-256 | one more failure at this time, and whether it is the one that trips the lockout |
| Lockout.Counter.Clear | skiff/auth.py:259-262 | exactly this address' entry goes |
| Lockout.SetupProbeAgrees | skiff/routers/setup.py:109-155 | the setup probe reports a remainder exactly when the enforcing check would refuse |
| Lockout.WsProbeAgrees | skiff/auth.py:198-236 | a positive report implies a lockout; a locked address is told less than one second below the true remainder, 0 exactly in the last second |
| Lockout.EvictionIsInvisible | skiff/auth.py:207-208 | evicting a stale entry changes no answer of check or probes to anyone, at that time or later, through any events in which each failure of that address follows a check of it |
| Lockout.EvictionShowsWithoutCheck | skiff/auth.py:198-249 | the answer after one failure without such a check differs exactly if there was a stale entry to evict whose count, with this failure, reaches a cap of two or more |
| Lockout.StartsAfresh | skiff/auth.py:198-256 | once the lockout time has passed since the last failure the check lets the address in, and only a full number of further failures locks it again |
| Lockout.RunInv | skiff/auth.py:198-256 | from a failure on, for less than the lockout time and with no clear, all failures of the address are counted, and once they reach the cap each further one uses up an attempt that was in flight |
| Lockout.LockoutBound | skiff/auth.py:198-256 | with at most m attempts of an address in flight, any stretch shorter than the lockout holds at most the cap and m - 1 of its failures, whatever other addresses do; with sequential attempts at most the cap |
| Lockout.ConcurrentAttemptsPassTheCap | skiff/auth.py:298-311 | for every cap and every m a run, each failure with its own check let through, that reaches that bound at a single moment |
| SessionCache.Cache.CheckAge | skiff/auth.py:55-88 | a new key is accepted, a known one exactly within both limits; the cache afterwards, with an oldest entry evicted when it is full |
| SessionCache.Cache.Invalidate | skiff/auth.py:91-95 | both maps are emptied |
| SessionCache.OldestExists | skiff/auth.py:77 | a non-empty cache has an oldest entry to evict |
| SessionCache.KeysAlwaysAgree | skiff/auth.py:72-88 | both maps always have the same keys, at most the cap, in whatever order calls come |
| SessionCache.AcceptedUsesWithinLimits | skiff/auth.py:82-88 | if the checks of one key come in clock order, all accepted uses of its entry lie within the absolute lifetime, consecutive ones within the idle limit, and first and last seen are the first and the latest of them |
| SessionCache.RejectedStaysRejected | skiff/auth.py:82-87 | if the checks of one key come in clock order, its rejected entry is rejected at every check until it is evicted or cleared |
| SessionCache.OrderKeptIff | skiff/auth.py:71-88 | one check keeps first seen before last seen exactly if it is rejected or its clock reading is not before the entry was made |
| SessionCache.LastSeenCanPrecedeFirstSeen | skiff/auth.py:71-88 | two calls that take the lock in the other order reverse the two times |
| SessionCache.RejectedCanRecover | skiff/auth.py:71-88 | a call with an older clock reading is accepted after a rejection |
| WsAuth.Validate | skiff/auth.py:284-318 | exactly the message `AUTH ` with the server token gets in, from an address not locked out and with a session within both limits; what is bound to the socket, the failure table and the whole session cache after each outcome |
| WsAuth.RecordedMeans | skiff/auth.py:293-318 | a locked address keeps its entry, getting in clears it, and any other message than the right one adds exactly one failure to those of the last lockout period |
| Keepalive.Keepalive | skiff/auth.py:344-366 | the loop ends in the first interval with a failed revalidation or a failed send, and which of the two it was |
| Keepalive.CounterGrows | skiff/auth.py:321-326 | the counter is the number of intervals since the last revalidation |
| Keepalive.RevalidatesWithin | skiff/auth.py:321-326 | while the knob stays at n or below, a revalidation comes within n intervals of any moment |
| Keepalive.RotationClosesWhen | skiff/auth.py:329-334 | over n intervals with one server token, a socket is closed exactly if both tokens are non-empty and differ |
| Keepalive.RotationCloses | skiff/auth.py:329-366 | a rotation ends a socket that authenticated with another token within n intervals |
| Keepalive.AgeCloses | skiff/auth.py:329-366 | a session past its age limits ends within n intervals as well |
| Keepalive.EndsWhen | skiff/auth.py:321-366 | what ends the loop in an interval |
| SetupLifecycle.StrippedMatchIsAllowed | skiff/routers/setup.py:177-199 | a stripped token that matches the pattern has only characters of the alphabet |
| SetupLifecycle.PatternAloneAcceptsNewline | skiff/routers/setup.py:177 | without the strip the pattern would accept a trailing newline |
| SetupLifecycle.TokenMeans | skiff/routers/setup.py:180-199 | which tokens are accepted, by length and characters, and which error the others get |
| SetupLifecycle.RegistriesMean | skiff/routers/setup.py:255 | the registry list is the stripped text between the commas without what is blank, in order |
| SetupLifecycle.EnvironmentIsImmutable | skiff/routers/setup.py:158-165 | a server configured by its environment keeps token, Docker host and registries through any requests |
| SetupLifecycle.TokenAlwaysWellFormed | skiff/routers/setup.py:180-199 | through any requests the token is empty or a stripped string of at least 16 characters of the alphabet |
| SetupLifecycle.SetupNeverOverwrites | skiff/routers/setup.py:158-165 | setup succeeds only without a token, not env-managed and inside the window; otherwise only failure counters change; the registry list is never emptied |
| SetupLifecycle.SetupFailsAtMostOnce | skiff/routers/setup.py:180-236 | an attempt adds at most one failure, only for bad input, and is locked out exactly when the probe says so |
| SetupLifecycle.SetupCountsBadInput | skiff/routers/setup.py:180-380 | bad input adds exactly one failure to those of the last lockout period, success clears the address |
| SetupLifecycle.ReviewerLeavesOnlyByReset | skiff/secure.py:66-89 | PROFILE leaves reviewer only by an accepted reset |
| SetupLifecycle.GateRefuses | skiff/secure.py:66-89 | in reviewer mode with a token every request but a reset is refused and changes nothing, and the gate refuses only then |
| SetupLifecycle.ReviewerFreezes | skiff/secure.py:66-89 | so nothing at all changes until an accepted reset |
| SetupLifecycle.LockedKnobsNeverChange | skiff/routers/system.py:456-466 | secret, env-sourced, policy-locked, lifecycle and hidden knobs other than PROFILE keep value and provenance through any requests |
| SetupLifecycle.EditSucceedsWhen | skiff/routers/system.py:437-495 | exactly when a knob edit succeeds, and that it stores the parsed value and the provenance |
| SetupLifecycle.ResetThenSetup | skiff/routers/setup.py:606-653 | after an accepted reset a valid setup inside the reopened window succeeds, whatever the state was |
| SetupServer.Server.ValidateApiToken | skiff/routers/setup.py:180-199 | the stripped token, well formed, or the first rule it breaks; a failure is recorded exactly on an error |
| SetupServer.Server.ApplySetup | skiff/routers/setup.py:245-257 | token and host are set, the registry list only if the new one is not empty, so it is never emptied |
| SetupServer.Server.DoSetup | skiff/routers/setup.py:354-380 | the handler makes the transition the lifecycle lemmas are about; exactly when it succeeds and what it then stores; otherwise only failure counters change |
| SetupServer.Server.RotateToken | skiff/routers/setup.py:567-596 | likewise for rotation: exactly when it succeeds, and the token afterwards |
| SetupServer.Server.ResetConfiguration | skiff/routers/setup.py:606-653 | likewise for reset, which an authorized caller always gets unless the environment configured the server, and what it clears |
| SetupServer.Server.UpdateKnob | skiff/routers/system.py:437-495 | likewise for a knob edit, which stores the parsed value under this name and changes no locked and no other knob |
| SetupServer.Server.EnterReviewerMode | skiff/routers/system.py:509-555 | likewise for the switch to reviewer: exactly when it succeeds, and that it changes nothing but PROFILE |
| ComposeProtocol.StepKeepsInv | skiff/routers/compose.py:274-304 | every step of every request, and every down, keeps the lock and directory invariant |
| ComposeProtocol.MutualExclusion | skiff/routers/compose.py:274-304 | bodies for one project never overlap |
| ComposeProtocol.SameNameSameLock | skiff/routers/compose.py:44-50 | two requests, at whatever times, get the same lock exactly if their project is the same |
| ComposeProtocol.LocksAreReleased | skiff/routers/compose.py:274-304 | a lock is held only by a request between taking and releasing it, whichever way it ends |
| ComposeProtocol.FailsWhenAStepDoes | skiff/routers/compose.py:274-304 | an up fails exactly if one of its steps went wrong |
| ComposeProtocol.FailedCreatorLeavesNoDirectory | skiff/routers/compose.py:279-303 | a failing up whose first look found no directory leaves none if its removal works, whatever downs do; if the removal fails, one is left exactly unless a down removes it after that |
| ComposeProtocol.MakesDirectoryWhen | skiff/routers/compose.py:279-280 | an up makes its directory exactly if its first look found none, or a down took the found one away before the second look |
| ComposeProtocol.DirectoryLeft | skiff/routers/compose.py:279-304 | what an up whose first look found a directory leaves, failing or not: nothing if a down comes after its second look, otherwise that directory with its upload if it was written, except that an empty one is removed when there is no upload |
| ComposeProtocol.DirectoryMadeAgain | skiff/routers/compose.py:279-303 | an up that found a directory and had to make it again leaves it exactly if it has an upload and no down comes after that, though it made it |
| ComposeProtocol.FailedMakerLeavesDirectory | skiff/routers/compose.py:274-303 | the exact condition under which a failing up that made its directory, in either way, leaves one |
| ComposeProtocol.RejectedUpCanLeaveEmptyDirectory | skiff/routers/compose.py:274-303 | a run in which a rejected upload leaves the empty directory that the up had made after a down |
| ComposeProtocol.FailedUpKeepsStoredFile | skiff/routers/compose.py:289-303 | a failing up that found a compose file leaves one exactly if no down of the project came since it wrote its own or, if it wrote none, since it looked; it is then its accepted upload, or the directory is as found |
| ComposeProtocol.SuccessfulUpDeployedItsFile | skiff/routers/compose.py:287-304 | a successful up leaves the file it had accepted exactly under the same condition, and then that is the one it deployed |
| ComposeProtocol.RunsOnlyWhatItChecked | skiff/routers/compose.py:178-210 | the file given to docker compose is the one the same request had accepted exactly if no down came between its last look or write and the run |
| ComposeProtocol.StoredFilesWereAccepted | skiff/routers/compose.py:190-199 | every stored file is as at the start or was accepted by the validator |
| ComposeProtocol.WriteFollowsAcceptance | skiff/routers/compose.py:190-199 | a file is written only after its content was accepted |
| ComposeProtocol.DownCanRemoveTheFoundFile | skiff/routers/compose.py:426-451 | a run in which a down between look and release takes the found file away, so that nothing is left when the failing up releases its lock |
| ComposeProtocol.DownCanRemoveTheCheckedFile | skiff/routers/compose.py:426-451 | with a concurrent down the file that was accepted need not be what is deployed |
| ComposeStore.Store.LockForProject | skiff/routers/compose.py:44-50 | the name has this lock, old locks stay, and no other name has it |
| ComposeStore.Store.ResolveProjectDir | skiff/routers/compose.py:142-157 | the directory is found or made, and nothing else changes |
| ComposeStore.Store.PrepareComposeFile | skiff/routers/compose.py:178-210 | when it succeeds, with which file, and which error otherwise; only an empty directory is lost |
| ComposeStore.Store.ComposeUp | skiff/routers/compose.py:274-304 | exactly when an up succeeds, which error it gives otherwise, and what every failure leaves of the disk |
| Redaction.RedactEnv | skiff/validators.py:318-327 | the loop maps every entry by the redaction of one entry |
| Redaction.RedactedName | skiff/validators.py:322-324 | a redacted entry keeps its name |
| Redaction.EntryMeans | skiff/validators.py:318-327 | the text after the first equals sign is replaced exactly if the name before it is sensitive, everything else stays |
| Redaction.EntryNoninterference | skiff/validators.py:318-327 | two entries redact alike exactly if they are equal or differ in the value of the same sensitive name |
| Redaction.EntryIdempotent | skiff/validators.py:318-327 | redacting an entry twice is redacting it once |
| Redaction.ListNoninterference | skiff/validators.py:342-343 | the same for lists of strings, entry by entry |
| Redaction.ValueNoninterference | skiff/validators.py:330-344 | the same for any value under a key |
| Redaction.DictNoninterference | skiff/validators.py:347-351 | two mappings redact alike exactly if they differ only under sensitive keys, in values of sensitive NAME=VALUE entries, or below the cut |
| Redaction.DictIdempotent | skiff/validators.py:347-351 | redacting a mapping twice is redacting it once |
| Redaction.KeysKept | skiff/validators.py:338-351 | a mapping that is not cut keeps its keys, and what sensitive keys held is gone |
| Redaction.HarmlessKept | skiff/validators.py:330-351 | under a harmless key texts and numbers stay, a list of texts is redacted text by text, any other list stays, a mapping is redacted one level deeper |
| Redaction.DeepIsCut | skiff/validators.py:347-351 | below ten levels a mapping is replaced as a whole |
| Redaction.DictNesting | skiff/validators.py:349-351 | the nesting of mappings in the result is bounded |
| Redaction.MixedListStaysReadable | skiff/validators.py:342-343 | a list with one item that is no string is not redacted at all |
| Sanitize.PassLeavesNoPath | skiff/validators.py:715 | one pass leaves no slash before a path character |
| Sanitize.PassIsIdentityOn | skiff/validators.py:713-715 | a pass changes no text without a path |
| Sanitize.OnePassSuffices | skiff/validators.py:711-715 | one pass reaches the fixpoint |
| Sanitize.PassDropsSlashes | skiff/validators.py:713-715 | a pass that changes the text removes a slash, so the loop ends |
| Sanitize.PassKeepsTheRest | skiff/validators.py:715 | a pass replaces exactly the maximal paths and keeps every other character |
| Sanitize.HostsKeepNoPath | skiff/validators.py:716 | hiding host names uncovers no path |
| Sanitize.HostsReplaced | skiff/validators.py:716 | each host match is replaced in its place and all the text between is kept |
| Sanitize.CollapseKeepsNoPath | skiff/validators.py:718 | collapsing runs of placeholders uncovers no path |
| Sanitize.CollapseLeavesNoRun | skiff/validators.py:718 | after collapsing no two placeholders stand in a row |
| Sanitize.CollapseIsIdentityOn | skiff/validators.py:718 | a text without two in a row stays as it is |
| Sanitize.CollapseMergesTwo | skiff/validators.py:718 | two placeholders in a row, anywhere, come to the same as one |
| Sanitize.TrimmedKeepsNoPath | skiff/validators.py:719 | neither do truncating and stripping |
| Sanitize.StripPaths | skiff/validators.py:711-715 | the loop ends after one round on a text without paths and after two on any other, with no path left |
| Sanitize.SanitizeStderr | skiff/validators.py:701-719 | the result has no path, at most 400 characters and no white space at its ends; it is the collapsed text with its hosts replaced, cut at 400 and stripped |
| PathTemplate.SplitGivesParts | skiff/logging_setup.py:274 | splitting a written template gives the literals between its placeholders |
| PathTemplate.NoPlaceholderStays | skiff/logging_setup.py:274 | a text without an opening and a closing brace that have something and no slash between them is not split |
| PathTemplate.PartsMatchSegments | skiff/logging_setup.py:275-276 | those literals joined by runs of non-slash characters match what the segments accept |
| PathTemplate.PatternMeansSegments | skiff/logging_setup.py:268-276 | the compiled pattern matches exactly the paths with as many segments, equal literals and non-empty placeholders, up to one newline at the end |
| AuditEvents.SortIsStable | skiff/logging_setup.py:303 | longest pattern first, nothing lost, ties in registration order |
| AuditEvents.EntriesOfRoute | skiff/logging_setup.py:290-300 | a route that declares an event and has a path gives one entry for each of its methods, or one for any method; another gives none |
| AuditEvents.EntriesInOrder | skiff/logging_setup.py:289-300 | the entries of all routes, in the order of the routes |
| AuditEvents.PatternLengthIsLength | skiff/logging_setup.py:274-303 | the sort key is the length of the escaped pattern with its anchors, as it is written |
| AuditEvents.Classifier.RegisterRouteAuditEvents | skiff/logging_setup.py:279-304 | the table is replaced by the sorted entries of all routes that declare an event |
| AuditEvents.Classifier.MatchAuditEvent | skiff/logging_setup.py:369-377 | the event is that of the first route entry with the request's method or any whose pattern matches; without one that of the first prefix entry with such a method; else the fallback |
| AuditEvents.TemplateHits | skiff/logging_setup.py:369-373 | an entry hits exactly the requests with its method, or any if it has `*`, whose path its template accepts |
| AuditEvents.OwnMethodDecides | skiff/logging_setup.py:369-373 | of two routes with one template and different methods each request gets the event of its own method, and a third method gets neither |
| AuditEvents.FirstHitIsLongest | skiff/logging_setup.py:301-304 | the deciding entry has the longest pattern of all that match |
| AuditEvents.TrialOrder | skiff/logging_setup.py:301-304 | of two registered entries the one with the longer pattern is tried first, of two as long the one registered earlier |
| AuditEvents.WhoDecides | skiff/logging_setup.py:369-373 | a registered entry decides a request exactly if it hits and is before every other hitting entry in that order |
| AuditEvents.PlaceholderBeatsShortLiteral | skiff/logging_setup.py:301-303 | in any table a placeholder is tried before a literal in its place exactly if the literal is escaped to fewer than five characters, or to five and registered later |
| AuditEvents.LabelOfLiteralPath | skiff/logging_setup.py:279-304 | with these two routes registered in either order, a request for the literal's own path gets the placeholder's event exactly then, and the literal's otherwise |
| AuditEvents.LiteralPathFitsBoth | skiff/logging_setup.py:268-276 | every path of the literal template also fits the one with the placeholder |
| LintNesting.BlockDepth | tools/lint_antipatterns.py:657-669 | the nested loops compute that depth |
| LintNesting.BranchesMean | tools/lint_antipatterns.py:671-685 | the branches of a statement are the statement lists in its fields, exception handlers among them, and only block statements have any |
| LintNesting.DepthCoversPaths | tools/lint_antipatterns.py:657-685 | the depth is at least the length of every way down through non-empty branches |
| LintNesting.DepthIsReached | tools/lint_antipatterns.py:657-685 | and some way down is exactly that long |
| LintNesting.ScanForNesting | tools/lint_antipatterns.py:643-654 | AP007 is reported exactly above the ceiling |
| LintNesting.WalkIfs | tools/lint_antipatterns.py:727 | the breadth-first walk visits every `if` below a function exactly once |
| LintNesting.IfsByFields | tools/lint_antipatterns.py:727 | the `if`s below a statement are those of the lists in its fields, each once |
| LintNesting.IfChainLength | tools/lint_antipatterns.py:741-747 | the moving cursor counts the chain |
| LintNesting.ChainLengthMeans | tools/lint_antipatterns.py:741-747 | the length is the number of `if`s in the chain written out, down to one whose else branch is no single `if` |
| LintNesting.IsChainContinuation | tools/lint_antipatterns.py:749-754 | True exactly if another `if` of the function has this one as its elif |
| LintNesting.HeadsAndTails | tools/lint_antipatterns.py:725-754 | every `if` is the head of a maximal chain or the elif of another, never both |
| LintNesting.HeadsAreNotContinuations | tools/lint_antipatterns.py:749-754 | the continuation test fails exactly on the heads of maximal chains |
| LintNesting.ScanForLongElif | tools/lint_antipatterns.py:725-739 | each maximal chain of at least five branches is reported, once, at its head, with its length, and nothing else |
| LintNesting.ChainForcesDepth | tools/lint_antipatterns.py:657-685 | an elif chain of length k at block depth d forces a depth of at least d + k |
| LintNesting.LongChainMeansDeepNesting | tools/lint_antipatterns.py:643-739 | for a chain reached through if, for, while, try and with blocks an AP009 report implies an AP007 report |
| LintNesting.IfsAreReached | tools/lint_antipatterns.py:368-689 | every `if` is reached through such blocks, or stands below a nested definition, a `match` or a `try*` that is |
| LintNesting.UnnestedLongChain | tools/lint_antipatterns.py:643-739 | so a chain of reported length in a function without an AP007 report is below such a statement |
| LintNesting.OtherHidesDepth | tools/lint_antipatterns.py:666-689 | there it can be: a nested definition, a `match` or a `try*` has depth 0 for the function around it, while all chains below are found |
| LintNesting.IsinstanceLadderLength | tools/lint_antipatterns.py:709-716 | the moving cursor counts the arms |
| LintNesting.LadderLengthMeans | tools/lint_antipatterns.py:709-716 | the length is the number of arms in the ladder written out |
| LintNesting.ScanForIsinstanceLadder | tools/lint_antipatterns.py:692-703 | exactly the `if`s that pass the head test are reported, with their length, and none twice |
| LintNesting.LadderReportsPerArm | tools/lint_antipatterns.py:718-722 | an arm passes the head test exactly if at least two more are below it |
| LintNesting.LadderReportCount | tools/lint_antipatterns.py:692-722 | the scan reports a ladder of m arms, m at least 2, exactly m - 2 times |
| LintNesting.LadderReportedOnce | tools/lint_antipatterns.py:718-722 | the head test holds only of the first arm exactly for ladders of three |
| KvList.ParseKvList | skiff/routers/volumes.py:111-135 | the loop returns the collected map or the first error, which ParsedIsJudged and ResultMeans describe by the characters of the input |
| KvList.ParseNetLabels | skiff/routers/networks.py:69-88 | the same answer, on every input, as the volume parser with the label patterns |
| KvList.PairMeans | skiff/routers/volumes.py:121-134 | a line gives a pair exactly if the stripped texts on either side of its first equals sign are that pair and pass |
| KvList.ErrorMeans | skiff/routers/volumes.py:125-133 | which of the three errors a line gives, by its characters |
| KvList.ParsedIsJudged | skiff/routers/volumes.py:111-135 | accepted exactly if every line is blank or a pair that passes; then every key and value passes; otherwise the error is that of the first line that does not |
| KvList.ResultMeans | skiff/routers/volumes.py:121-135 | a key has exactly the value the last line with this key gives it |
| KvList.AcceptedWhenNoneBad | skiff/routers/volumes.py:121-134 | accepted exactly if no entry is bad, otherwise the first bad entry is the error |
| KvList.LaterEntriesWin | skiff/routers/volumes.py:134 | the result has the keys of the entries, each with the value given last |
| KvList.ParsedIsClean | skiff/routers/volumes.py:121-134 | no accepted input yields a value with a comma or white space at its ends |
| KvList.RoundTrip | skiff/routers/volumes.py:111-135 | printing a label map and parsing it gives the map back exactly if no value has a comma or white space at its ends |
| VolumeIndex.IndexContainersByVolume | skiff/routers/volumes.py:38-54 | the nested loops build the index of every named mount in listing order |
| VolumeIndex.IndexHoldsMentions | skiff/routers/volumes.py:50-54 | for every name, each container once per mount of it, in listing order |
| VolumeIndex.ScanMeans | skiff/routers/volumes.py:66-77 | the scan gives one name for each container with a mount of the volume, in listing order, and no other |
| VolumeIndex.CollapsedIndexIsScan | skiff/routers/volumes.py:38-77 | with container names distinct and repeats collapsed the index gives exactly what the direct scan finds |
| VolumeIndex.InUseAgrees | skiff/routers/volumes.py:59-77 | index and scan agree on whether a volume is in use |
| VolumeIndex.SameListWhen | skiff/routers/volumes.py:38-77 | the two lists are equal exactly if no container mounts the volume twice |
| VolumeIndex.EmptyNameDiffers | skiff/routers/volumes.py:52-53 | for the empty name they agree exactly if nothing has it |
| AuditTail.LinesMakeUpTheText | skiff/routers/audit.py:45 | the lines are the text between newlines, with only the last newline allowed to be missing |
| AuditTail.LinesAreSplitLines | skiff/routers/audit.py:45 | on such texts they are what `splitlines` gives |
| AuditTail.ReadLastChunk | skiff/routers/audit.py:29-46 | what is read is the suffix of the list of all lines that start after the chunk does, all of them if the chunk is the whole file, none of an unreadable file |
| AuditTail.DroppedLines | skiff/routers/audit.py:39-46 | splitting at an offset and dropping the first piece keeps exactly the lines that start after it |
| AuditTail.TailIsSuffix | skiff/routers/audit.py:29-46 | what is read is a suffix of the list of all lines, and which |
| AuditTail.TailIsExactWhen | skiff/routers/audit.py:91-95 | the last lines of the chunk are those of the file exactly if the chunk is the file or the first wanted line starts after the chunk does |
| AuditTail.BudgetSuffices | skiff/routers/audit.py:90-91 | 600 bytes a line are enough if no wanted line is longer than 598 |
| AuditTail.LongLineLosesRecords | skiff/routers/audit.py:90-91 | one line over the budget loses a record |
| AuditTail.CollectEntries | skiff/routers/audit.py:94-101 | the selection loop ends with the exception of the first line that raises, or else with the entries of all lines, as EntriesAreShown describes them, and the number of raw objects among them |
| AuditTail.EntriesAreShown | skiff/routers/audit.py:49-57 | the entries are, in line order, what each non-blank line decodes to unless it is null, and the line itself under `raw` where it does not decode; nothing else |
| AuditTail.GetAuditLog | skiff/routers/audit.py:89-102 | the request succeeds exactly if no selected line raises (the decoder raises something else than JSONDecodeError, or the line is a number, a Boolean, or a string or list containing "raw") and the entries can be rendered; which exception it fails with; what the answer and its headers are, at most `tail` entries |
| AuditTail.ParseErrorsAreFailuresAndRawObjects | skiff/routers/audit.py:96-101 | the error header counts undecodable lines and genuine `{"raw": ...}` objects |

## Left out

- Liveness: nothing is said about a timer, a close or a retry happening eventually; the transition systems say what can happen.
- Exceptions that are not caught by the code's `except Exception` (interpreter exit, cancellation) end a thread between two of its steps; they have no step of their own.
- Randomness of tokens, HMAC and constant-time comparison: a token is fresh, a key stands for the hash of a token, comparison is equality.
- The names under which an undo op, an audit line or a log entry is reported.
- The tunnel subprocess, socket probing, image search, and file copy: foreign processes and network.
- HTTP wiring, rate limits, response models, security headers, log rotation, and all of skiff/static.
- Lockout.LockoutBound: the clock readings of one address are taken to be in order; the code reads the clock before it takes the lock, and readings that cross are not covered.
- `_classify_event`: the parsing of resource type and identifier around `_match_audit_event` would only add easy members.
- The host pattern of `_sanitize_stderr` is given by where it matches, and the word list of redaction by a predicate, so the lemmas hold for any word list.
- YAML validation and the Docker host URL check are predicates; `_sanitize_project_name` is applied before the model of `compose_up` begins.
- ExecProtocol.FlipAloneIsNotEnough: the model lets any thread write PROFILE; on the server the only flip runs on the event loop, which is the case of FlipOutsideRegisterIsFinal.
- `compose_down` has one step, its final removal, which takes the whole directory at once; a removal that takes only part of it or interleaves with a write, and its own subprocess and errors, are not modelled.
- ComposeProtocol.StoredFilesWereAccepted: a write happens as a whole or not at all, so a file half written by a failing disk is not covered.
- ComposeStore.Store.ComposeUp: every removal works here; ComposeProtocol has the failing ones.
- Which texts `json.loads` decodes or raises on and which values can be rendered are parameters, so NaN, lone surrogates, overlong integers and deep nesting have no case of their own; decoding and rendering do not depend on anything but their argument.
- The methods of a route are a sequence; the code takes them from a set. Entries of one route share pattern and event, so their order does not show in the event chosen.
- AuditTail.LinesMakeUpTheText: other line boundaries and multi-byte characters cut by the chunk are not covered.
- LintNesting.WalkIfs: the order of the visits is not modelled, as expression and handler nodes are left out of the tree; only which nodes are visited is.
- ExecRegistry.Registry.ExecShell: a session is known by its socket alone, and its container by nothing.
- Quantity parsing, update limits and the other validators: mostly single range checks.
