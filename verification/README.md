# tinyruntime: a verified model of its runtime core

This project models the parts of tinyruntime whose guarantees hold over whole runs rather than for
single calls, and proves those guarantees for every run, every interleaving and every crash.

- **Worker supervisor** (`Supervisor`, with `ReplayWindow`, `Wire`, `Ownership`, `Framing`). One
  supervisor owns one native worker process. `Supervisor.Actor` has the fields of the source's actor
  and a method for each of its operations; whatever the world decides is chosen freely, and at every
  await time may pass, the stop signal may arrive, and every child must be accounted for. The 8-number
  replay window is proved to be indistinguishable from a log that forgets nothing.
- **Persistent cache recipes** (`CacheTree`, `CacheProtocol`, `CachePublication`, `CrashSafety`,
  `CacheSession`, `CacheStaging`, `Paths`, `Scopes`). A cache scope is a tree of files; sessions of any
  number of managers lock it, install, run commands, publish and adopt, and may die between any two
  file operations. `CacheSession.Disk` keeps every state the scope has been through, so crash safety is
  a statement about all of them.
- **Worker manager** (`Handles`, `ManagerModel`, `Manager`, `Lifetimes`). Concurrent reserve, prepare, start,
  request, status, stop and shutdown over a book of sixteen slots and handles that are never reused.
- **Language pool** (`PoolModel`, `LangPool`, `PoolWorker`). Any number of runs and the idle reaper
  over counters, permits and the idle list, with the decision to spawn acted on after the idle lock is
  released.
- **Installs** (`InstallNames`, `InstallModel`, `Installer`, `InstallStretches`, `InstallHazard`,
  `InstallTwice`, `InstallReach`). Any number of processes that race to install toolchains into one cache
  root, crash wherever they like, and have callers that go away inside a promotion.

Concurrent parts come twice. A machine (`CacheProtocol`, `ManagerModel`, `PoolModel`, `InstallModel`)
has one step for each stretch of code that nobody can observe half done, and the theorems about runs
are proved about it. A class (`CacheSession.Session`, `Manager.WorkerManager`, `LangPool.LangPool`,
`Installer.CacheRoot`) has the source's fields, loops and branches, and each of its methods is proved
to be a step, or a stretch of steps, of that machine. Wherever the source awaits, a call of `Suspend`
or `Others` lets everybody else act; its contract is what the machine proves of all of them.

`dafny verify dfyconfig.toml` checks everything.

Four promises turned out to need a condition. For each of them the condition is proved sufficient over
whole runs, and an if-and-only-if says that it is not stronger than it has to be.

- Crash safety of the cache. A scope is crash safe under any set of recipes none of which lists another's
  marker, path and bytes alike, among its artifacts (`CrashSafety.DisjointRecipesAreCrashSafe`).
  Validation looks at one recipe at a time (worker/cache/validate.rs:117-150) and cannot see this, but
  whoever writes the recipes of a scope can. A sound scope that is Cached for a recipe, whether or not a
  second one is installed there too, stays crash safe under the two if and only if the second does not
  list that marker, as long as the first needs nothing at or below the second's marker path
  (`CrashSafety.CrashSafeIff`).
- A failed rebuild never becomes adoptable. Once an install has begun on a marker path, no later state reads
  as Legacy under the same condition (`CacheProtocol.NeverLegacyAgain`,
  `CrashSafety.DisjointRecipesAreNeverReadopted`), and it is exact (`CrashSafety.NeverReadoptedIff`). From the
  first sidecar on, the promise needs no condition (`CacheProtocol.SidecarsEndLegacy`).
- A reader never sees a half-populated tree (store/mod.rs:12-20). The lock is let go with the caller's
  future, while the blocking thread that promotes runs on, so the lock file alone is not guard enough. The
  promise holds in every run, crashes and callers that go away included, in which no lock is *taken* while
  another install is replacing a previous one under the same aside name
  (`InstallModel.DestinationsAreNeverHalf`). Aside names are shared exactly within one process and one lock
  (`InstallNames.SharedAsideIff`). In any state that such a run can be in, taking the lock now is harmless if
  and only if that holds now (`InstallHazard.HalfATreeCanFollowIff`). It matters that the guard is at the
  taking of the lock: an install that was already waiting when the other was abandoned does the same harm as
  one that is begun later (`InstallReach.AbandonedPromotionCanLeaveHalfATree`).
- A toolchain is installed once (resolve/install.rs:7-12). With an honest provider a destination is promoted
  to at most once in every run in which no lock is taken while another install, of whatever process, is inside
  a promotion with its tree still to be placed there (`InstallModel.AtMostOnePromotes`), and that is exact too
  (`InstallTwice.SecondPromotionCanFollowIff`). Here the processes may differ, and the guard for whole trees
  does not help (`InstallReach.AbandonedPromotionCanBeRepeated`).

Both guards hold by themselves as long as no caller goes away inside a promotion
(`InstallModel.LocksAreGuardEnough`). A program that owns its installs keeps them by not dropping the future
of an install inside `promote`, or else by not letting any install under that lock, waiting or new, go on
until the abandoned blocking thread has ended; for other processes that takes an agreement between them.

A smaller difference between words and code: a handle such as `<nonce>:05` or `<nonce>:+5` was never
issued, but because the code parses the number it is answered as closed, not unknown, once number 5 has
been issued (`Handles.KnownButNeverIssued`). What the code takes for its handles is exactly the nonce, a
colon, an optional plus, any zeros, and the decimal notation of an issued number (`Handles.KnownIff`).

## Model

| member | source | states |
|---|---|---|
| Framing.FirstLineIff | crates/tinyruntime/src/worker/native.rs:31-55 | a frame is exactly the bytes through the first newline when they fit in 256 KiB; the limit error occurs exactly when the first 256 KiB have no newline; every other pipe ends in its end |
| Framing.Line | crates/tinyruntime/src/worker/native.rs:31-55 | however the pipe cuts its bytes into pieces, the reader answers as a function of the bytes alone and leaves exactly the rest unread |
| Framing.AwaitReply | crates/tinyruntime/src/worker/native.rs:287-299 | the reading loop ends for every pipe and returns what the byte-level specification of a reply says |
| Framing.ReplyReturnsTheFirstAnswer | crates/tinyruntime/src/worker/native.rs:287-299 | behind any number of legal frames that do not answer, the first that does is returned exactly when all of them together fit in 1 MiB, and otherwise the output limit is reported |
| Framing.ReplyIsTheFirstAnswer | crates/tinyruntime/src/worker/native.rs:287-299 | a returned reply is the first frame with the right id, and everything up to it is made of legal frames within the budget |
| Framing.ReplyLooksNoFurther | crates/tinyruntime/src/worker/native.rs:287-299 | a request never looks further than its budget and one line, so an endless stream cannot hold it |
| Framing.DrainBounded | crates/tinyruntime/src/worker/native.rs:379-383 | two pipes drained against one shared counter, in whatever order their reads interleave, are drained exactly when both end cleanly and together hold at most 1 MiB, and the limit is reported only when they hold more |
| Framing.Preflight | crates/tinyruntime/src/worker/validate.rs:84-96 | the preflight accepts exactly the encodings that fit on a line with their newline, however the encoder cuts them into writes |
| Framing.PreflightedRequestTravelsWhole | crates/tinyruntime/src/worker/native.rs:277-286 | a request that passed the preflight is never refused by the dispatcher and reaches any reader as one whole frame |
| ReplayWindow.HandleKeepsConsistent | crates/tinyruntime/src/worker/actor.rs:459-482 | every request keeps the window equal to the full log cut off eight below the highest number |
| ReplayWindow.HandleRefinesTheUnboundedLog | crates/tinyruntime/src/worker/actor.rs:459-482 | the bounded supervisor answers as one that forgets nothing, and says Expired exactly at or below the bound |
| ReplayWindow.WindowHoldsAtMostEight | crates/tinyruntime/src/worker/actor.rs:474-480 | at most eight replies are kept |
| ReplayWindow.RunRefinesTheUnboundedLog | crates/tinyruntime/src/worker/actor.rs:459-482 | the same over whole runs, for every request of every run |
| ReplayWindow.AttemptedAtMostOnce | crates/tinyruntime/src/worker/actor.rs:459-482 | an operation number that was attempted is never attempted by a later request; it is replayed, a conflict or expired, and nothing more is written |
| ReplayWindow.LogIsNeverRewritten | crates/tinyruntime/src/worker/actor.rs:474-480 | the outcome recorded for a number never changes |
| ReplayWindow.AtMostTwoFrames | crates/tinyruntime/src/worker/actor.rs:484-560 | at most two frames per operation number are ever begun |
| ReplayWindow.NearbyArrivalsNeverExpire | crates/tinyruntime/src/worker/actor.rs:470-472 | numbers that span fewer than eight never expire, in any order of arrival, from a state not yet eight ahead of them |
| ReplayWindow.ForgottenIff | crates/tinyruntime/src/worker/actor.rs:474-480 | an attempted number is forgotten exactly when some attempted number is at least eight above it |
| Wire.OrderlyMeansNoStaleReply | crates/tinyruntime/src/worker/actor.rs:502-558 | between two frames to one process lies the answer to the first, the numbers differ, and a retry of a number goes to a strictly newer process: a reply cannot be left over |
| Ownership.BeginReap | crates/tinyruntime/src/worker/native.rs:126-151 | handing a child to the reaper task neither loses nor duplicates it |
| Ownership.FinishReap | crates/tinyruntime/src/worker/native.rs:152-168 | only a wait that saw the child exit lets go of it; every failed or aborted wait keeps it owned |
| Ownership.OneOwnerUntilReaped | crates/tinyruntime/src/worker/native.rs:120-168 | through every history of failed, abandoned and repeated cleanups a child has exactly one owner until a wait has seen it exit, and none from then on |
| Supervisor.Actor.ReapPreparation | crates/tinyruntime/src/worker/native.rs:412-426 | a failed reap leaves the same preparation child owned; a successful one records it as reaped |
| Supervisor.Actor.ReapProcess | crates/tinyruntime/src/worker/native.rs:303-325 | a failed or dropped cleanup of the worker keeps its child accounted for |
| Supervisor.Actor.Cleanup | crates/tinyruntime/src/worker/actor.rs:311-356 | success means every child is reaped and the cache session is released; failure means something is still owned |
| Supervisor.Actor.Execute | crates/tinyruntime/src/worker/native.rs:372-410 | a preparation command keeps its child accounted for through output limits, timeouts, stop and failed waits, and counts as done only if its output was drained, its end seen, and it succeeded |
| Supervisor.Actor.Step | crates/tinyruntime/src/worker/actor.rs:241-263 | a preparation slot is emptied only after its child was reaped |
| Supervisor.Actor.ProvisionCache | crates/tinyruntime/src/worker/actor.rs:184-231 | publication happens at most once, and only after every recipe command in turn ran, succeeded and was reaped |
| Supervisor.Actor.PrepareCache | crates/tinyruntime/src/worker/actor.rs:164-182 | the cache session is released only after every command it started is reaped; a failure keeps both owned |
| Supervisor.Actor.Prepare | crates/tinyruntime/src/worker/actor.rs:233-268 | preparation completes only if every command succeeded, and with nothing of it left owned |
| Supervisor.Actor.SpawnProcess | crates/tinyruntime/src/worker/actor.rs:394-402 | a new worker is spawned only into an empty slot, is younger than every child before it, and owes nothing |
| Supervisor.Actor.Launch | crates/tinyruntime/src/worker/actor.rs:392-445 | a launch either ends in a running worker without a back-off or, once cleaned up, in an empty slot with exactly one back-off from then on |
| Supervisor.Actor.Refresh | crates/tinyruntime/src/worker/actor.rs:371-388 | an idle or dead worker is never kept, and the slot is empty whenever a launch may follow |
| Supervisor.Actor.Start | crates/tinyruntime/src/worker/actor.rs:358-446 | at most one child is spawned, never after a stop signal, never before preparation completed, never during the back-off of a failed startup |
| Supervisor.Actor.ExchangeOnce | crates/tinyruntime/src/worker/actor.rs:524-531 | a frame is written only to a running worker that owes nothing and never saw this number, and only its reply settles it |
| Supervisor.Actor.Converse | crates/tinyruntime/src/worker/actor.rs:524-554 | a reply is returned exactly when it is acceptable, which a failure reply is only on the last attempt; every other end of an exchange empties the slot or reports a failed cleanup |
| Supervisor.Actor.Attempt | crates/tinyruntime/src/worker/actor.rs:502-554 | a second attempt can follow only with the slot empty, hence on a newer process |
| Supervisor.Actor.DispatchRequest | crates/tinyruntime/src/worker/actor.rs:484-560 | at most two frames, none without being recorded as attempted, none after a stop signal that came first |
| Supervisor.Actor.HandleRequest | crates/tinyruntime/src/worker/actor.rs:459-482 | answer and new window are those of the replay window machine for this very request |
| Supervisor.Actor.Supervise | crates/tinyruntime/src/worker/actor.rs:125-133 | a timer tick leaves a living worker of a prepared plan alone, and a dead one is no longer counted as running |
| Supervisor.Actor.Serve | crates/tinyruntime/src/worker/actor.rs:119-162 | the commands taken are a run of the replay window, and none is taken after a stop signal |
| Supervisor.Actor.Close | crates/tinyruntime/src/worker/actor.rs:71-88 | a supervisor closes only with every child it ever spawned reaped and its cache session released, whatever state it closes from |
| Supervisor.Actor.Run | crates/tinyruntime/src/worker/actor.rs:68-90 | over a whole life: at most two frames per number, orderly traffic, and closed only when everything is reaped and released |
| CacheTree.ReadinessIff | crates/tinyruntime/src/worker/cache/mod.rs:146-171 | a scope is Cached exactly when the whole payload is in place and the sidecar records this very recipe, Legacy exactly when it is in place without any sidecar and the recipe opted in |
| CacheTree.MatchesIff | crates/tinyruntime/src/worker/cache/filesystem.rs:65-92 | an artifact matches exactly when an unshared regular file of its bytes, within the size limit, is reachable through real directories |
| CacheTree.ParentOpensIff | crates/tinyruntime/src/worker/cache/filesystem.rs:46-57 | the walk to a path's parent succeeds exactly when every directory on the way is a real directory |
| CacheProtocol.NextKeepsInv | crates/tinyruntime/src/worker/cache/mod.rs:146-252 | every file operation of every session, every crash and every command keeps each standing marker in step with its sidecar and with what was published |
| CacheProtocol.RunKeepsInv | crates/tinyruntime/src/worker/cache/mod.rs:146-252 | the same over whole runs of any number of sessions |
| CacheProtocol.CachedOnlyAfterPublication | crates/tinyruntime/src/worker/cache/mod.rs:146-252 | crash safety over whole runs: a scope that reads as Cached owes it to a completed publication or adoption of exactly that recipe, and no install has begun on that marker path since |
| CacheProtocol.PublishedWasCompleted | crates/tinyruntime/src/worker/cache/mod.rs:233-252 | the record of the last publication of a marker path names a step that completed it and was not superseded |
| CacheProtocol.NeverLegacyAgain | crates/tinyruntime/src/worker/cache/mod.rs:160-170 | a failed rebuild never becomes adoptable: once an install has begun, no later state reads as Legacy, in runs of recipes that list no marker of the scope among their artifacts |
| CacheProtocol.SidecarsEndLegacy | crates/tinyruntime/src/worker/cache/mod.rs:160-170 | once a sidecar exists, no later state reads as Legacy, whatever recipes are in use |
| CacheProtocol.StagingKeepsReadiness | crates/tinyruntime/src/worker/cache/mod.rs:146-171 | what sessions do in their staging directories leaves a Cached scope Cached and a Legacy scope Legacy |
| CacheProtocol.ReadyScopeRunsNothing | crates/tinyruntime/src/worker/actor.rs:189-195 | once a scope is ready, any number of later sessions of the recipe run no command and begin no install |
| CachePublication.CompletionMakesReady | crates/tinyruntime/src/worker/cache/mod.rs:199-252 | a completed publication or adoption makes the scope read as Cached for its recipe |
| CachePublication.CommandsCompleteAtMostOnce | crates/tinyruntime/src/worker/cache/mod.rs:233-252 | with nothing changed from outside, and what was checked before a sidecar's promotion or an adoption still so at the rename, after the first publication or adoption no session of any manager runs a command, begins an install or publishes again, whatever crashes |
| CachePublication.PromotionKeepsPayload | crates/tinyruntime/src/worker/cache/filesystem.rs:134-147 | promoting marker or sidecar takes nothing away from the required entries and artifacts |
| CacheSession.MakeParents | crates/tinyruntime/src/worker/cache/filesystem.rs:31-57 | parent directories are only added, and anything but a directory in the way stops the walk |
| CacheSession.Promote | crates/tinyruntime/src/worker/cache/filesystem.rs:134-147 | a promotion lands whole on nothing or on an unshared regular file, or changes nothing but new directories |
| CacheSession.Classify | crates/tinyruntime/src/worker/cache/mod.rs:146-171 | the classification loop computes the readiness that `ReadinessIff` characterises |
| CacheSession.Disk.Apply | crates/tinyruntime/src/worker/cache/filesystem.rs:122-161 | one file operation takes effect whole or not at all, and the state it leaves is a state of a protocol run |
| CacheSession.Session.Acquire | crates/tinyruntime/src/worker/cache/mod.rs:59-123 | only a session that got a free lock on an unshared regular lock file and could classify the scope keeps the lock; acquiring changes no file but a missing lock file |
| CacheSession.Session.Invalidate | crates/tinyruntime/src/worker/cache/filesystem.rs:149-161 | the marker is gone before anything else changes; a marker path that is not an unshared file refuses the install |
| CacheSession.Session.Install | crates/tinyruntime/src/worker/cache/mod.rs:173-197 | success means every artifact is in place, identity and marker are staged, and the scope has no marker |
| CacheSession.Session.InstallArtifact | crates/tinyruntime/src/worker/cache/mod.rs:186-192 | promoting one artifact keeps all earlier ones in place |
| CacheSession.Session.Publish | crates/tinyruntime/src/worker/cache/mod.rs:233-252 | publication makes the scope read as Cached for this recipe or leaves no marker behind |
| CacheSession.Session.PublishIdentity | crates/tinyruntime/src/worker/cache/mod.rs:250-250 | the sidecar goes in before the marker and disturbs no payload |
| CacheSession.Session.PublishMarker | crates/tinyruntime/src/worker/cache/mod.rs:251-251 | the marker goes in last, over a verified payload and the recipe's own sidecar |
| CacheSession.Session.AdoptLegacy | crates/tinyruntime/src/worker/cache/mod.rs:199-231 | adoption changes no final path except the sidecar and makes the scope Cached; a failed adoption changes no final path at all |
| CacheSession.Session.Cleanup | crates/tinyruntime/src/worker/cache/mod.rs:254-262 | the lock is released only after the staging directory is gone; a failure keeps lock and record for a retry |
| CacheSession.Session.OpenLockFile | crates/tinyruntime/src/worker/cache/mod.rs:67-81 | the lock file is made only where there is none, and only an unshared regular file is accepted as one |
| CacheSession.Session.RemoveStaging | crates/tinyruntime/src/worker/cache/staging.rs:42-57 | within the scope, cleanup removes recorded names and the emptied staging directory, and nothing else |
| CacheStaging.Staging.Reopen | crates/tinyruntime/src/worker/cache/staging.rs:30-41 | a handle that was given up is had again only from a directory of the recorded identity |
| CacheStaging.Staging.Cleanup | crates/tinyruntime/src/worker/cache/staging.rs:29-58 | whatever others rebind or write in between, every removal is of a recorded name from the directory of the recorded identity, or of that directory; a mismatch fails without removing anything |
| CacheStaging.Session.Cleanup | crates/tinyruntime/src/worker/cache/mod.rs:254-262 | a failed cleanup keeps lock, staging record and recorded names |
| CacheStaging.Session.CleanupAgain | crates/tinyruntime/src/worker/actor.rs:71-83 | the same over any number of failed and repeated cleanups, and the lock is held exactly until that directory is gone |
| CacheSession.Session.Provision | crates/tinyruntime/src/worker/actor.rs:184-231 | however it succeeds the scope reads as Cached, and commands run exactly when the scope was neither Cached nor Legacy |
| CacheSession.EveryCrashStateIsSound | crates/tinyruntime/src/worker/cache/mod.rs:146-252 | in every state a crash could have left behind, Cached means the recorded publication of that recipe |
| CrashSafety.DisjointRecipesAreCrashSafe | crates/tinyruntime/src/worker/cache/mod.rs:146-252 | from every sound scope, under every set of recipes none of which lists a marker of the set as an artifact, Cached always means last published by that very recipe, whatever dies where |
| CrashSafety.OverlapRestores | crates/tinyruntime/src/worker/cache/mod.rs:186-192 | from every sound scope that is Cached or Legacy for a recipe, any other recipe that lists its marker, installed or not, can bring it to read the same again after an install on that marker path was begun and never completed |
| CrashSafety.CrashSafeIff | crates/tinyruntime/src/worker/cache/validate.rs:117-150 | a sound scope that is Cached for the one recipe, whether or not the other is installed too, is crash safe under the two if and only if the marker of the one is not an artifact of the other |
| CrashSafety.DisjointRecipesAreNeverReadopted | crates/tinyruntime/src/worker/cache/mod.rs:160-170 | from every sound scope, under every set of recipes none of which lists a marker of the set, no begun install is ever followed by Legacy |
| CrashSafety.NeverReadoptedIff | crates/tinyruntime/src/worker/cache/validate.rs:117-150 | a sound scope that is Legacy for the one recipe can be so again after an install was begun there if and only if the marker of the one is an artifact of the other |
| Paths.SplitRoundTrip | crates/tinyruntime/src/worker/cache/validate.rs:96-113 | splitting a path into its parts loses nothing |
| Paths.SafePathsStayBelow | crates/tinyruntime/src/worker/cache/validate.rs:88-115 | an accepted path, resolved component by component with the meaning the system gives to dots, stays strictly below its root |
| Paths.SafePathsAreApart | crates/tinyruntime/src/worker/cache/validate.rs:88-115 | different accepted paths lead to different places |
| Paths.Parent | crates/tinyruntime/src/worker/cache/filesystem.rs:46-57 | the walk refuses everything but accepted paths, never leaves the directory it starts from, and ends where the path leads |
| Paths.AcceptedPathsAvoidReservedNames | crates/tinyruntime/src/worker/cache/validate.rs:77-86 | resolved from any directory, an accepted path leads to, into and through nothing that carries one of the router's own names, in any case |
| Scopes.Scope | crates/tinyruntime/src/worker/cache/validate.rs:23-75 | a root is accepted exactly when it is absolute, deep enough, and clear of credential, home and system directories |
| Scopes.Approve | crates/tinyruntime/src/worker/cache/mod.rs:21-37 | a list is accepted exactly when it is short enough, each scope may be approved, and no two share an id or nest |
| Scopes.ApprovedScopesAreDisjoint | crates/tinyruntime/src/worker/cache/mod.rs:26-34 | places reachable by accepted paths from two approved scopes never coincide or nest |
| Scopes.Check | crates/tinyruntime/src/worker/cache/validate.rs:117-150 | a recipe is accepted exactly when it keeps every limit, its paths are accepted and distinct, and its bytes fit |
| Scopes.CheckFiles | crates/tinyruntime/src/worker/cache/validate.rs:127-142 | the set and the byte counter accept exactly files with accepted, distinct paths that are small enough one by one and together |
| Scopes.FittingArtifactsAreDistinctFiles | crates/tinyruntime/src/worker/cache/validate.rs:127-142 | the artifacts and the marker of an accepted recipe are distinct files strictly inside their scope |
| Handles.DecimalRoundTrip | crates/tinyruntime/src/worker/mod.rs:186-208 | the printed number of a handle is read back as that number |
| Handles.HandleIsKnownOnceIssued | crates/tinyruntime/src/worker/mod.rs:203-217 | a manager knows a handle of its own exactly from the moment its number is issued |
| Handles.HandlesAreDistinct | crates/tinyruntime/src/worker/mod.rs:186-186 | handles of different numbers differ |
| Handles.KnownIff | crates/tinyruntime/src/worker/mod.rs:203-217 | a string is taken for a handle exactly when it is the nonce, a colon, an optional plus, any zeros and the decimal notation of an issued number |
| Handles.KnownButNeverIssued | crates/tinyruntime/src/worker/mod.rs:203-217 | with a plus or a zero such a string is no number's handle, and still known |
| ManagerModel.NextKeepsInv | crates/tinyruntime/src/worker/mod.rs:170-450 | every critical section, every supervisor step and the clock keep the book sound: at most sixteen slots, each unclosed supervisor with its slot, every shutdown waiting for all unclosed supervisors |
| ManagerModel.RunGoesOnward | crates/tinyruntime/src/worker/mod.rs:170-450 | between any two states of a run nothing is forgotten, reopened or replaced, and a retired handle gets nothing back |
| ManagerModel.LiveSupervisorsAreBounded | crates/tinyruntime/src/worker/mod.rs:175-181 | in every reachable state each unclosed supervisor has its slot, and there are at most sixteen |
| ManagerModel.ReservedHandleIsNew | crates/tinyruntime/src/worker/mod.rs:182-200 | a reserved handle was never live and never known before |
| ManagerModel.RetiredHandlesStayClosed | crates/tinyruntime/src/worker/mod.rs:203-217 | an issued handle that lost its slot never becomes live again, and every operation on it answers closed |
| ManagerModel.IssuedHandlesAreNeverUnknown | crates/tinyruntime/src/worker/mod.rs:203-217 | a missing handle is unknown exactly before its number is issued |
| ManagerModel.ExpiredReservationsNeverStart | crates/tinyruntime/src/worker/mod.rs:268-270 | a reservation that ran out never gets a plan or a supervisor |
| ManagerModel.PlansNeverChange | crates/tinyruntime/src/worker/mod.rs:263-266 | a handle keeps the plan it was prepared with, and only that plan is waited for again |
| ManagerModel.ShutdownIsFinal | crates/tinyruntime/src/worker/mod.rs:411-434 | after a completed shutdown the book stays empty, every supervisor ever started stays closed with every child it ever spawned reaped and its cache session released, none acts on a process, and nothing is admitted |
| Lifetimes.ClosedActorsAreReleased | crates/tinyruntime/src/worker/actor.rs:71-88 | an actor that is closed has released everything, which is what the manager's machine asks of a supervisor that closes |
| ManagerModel.NothingStartsAfterShutdownBegins | crates/tinyruntime/src/worker/mod.rs:412-423 | from the beginning of a shutdown no handle is issued and no supervisor started |
| Manager.OthersLeaveAShutdownAlone | crates/tinyruntime/src/worker/mod.rs:411-434 | nobody but its caller ends a shutdown under way |
| Manager.WorkerManager.Missing | crates/tinyruntime/src/worker/mod.rs:203-217 | the answer for a handle without a slot |
| Manager.WorkerManager.Retain | crates/tinyruntime/src/worker/mod.rs:175-178 | a reservation throws out exactly closed workers and reservations that ran out |
| Manager.WorkerManager.Reserve | crates/tinyruntime/src/worker/mod.rs:170-201 | the critical section is the machine's reservation step, refusals included |
| Manager.WorkerManager.Prepare | crates/tinyruntime/src/worker/mod.rs:252-289 | the critical section is the machine's prepare step and starts the slot's one supervisor |
| Manager.WorkerManager.Submit | crates/tinyruntime/src/worker/mod.rs:304-330 | a command is queued only for an unclosed worker that was not told to stop, before shutdown |
| Manager.WorkerManager.Request | crates/tinyruntime/src/worker/mod.rs:343-372 | whatever happens between its two locks, a request is queued only for a live worker, and an issued handle is never unknown |
| Manager.WorkerManager.Status | crates/tinyruntime/src/worker/mod.rs:378-385 | status answers for exactly the slots that have not run out, and calls other issued handles closed |
| Manager.WorkerManager.WaitClosed | crates/tinyruntime/src/worker/mod.rs:437-450 | waiting reports closure only of a closed supervisor |
| Manager.WorkerManager.Stop | crates/tinyruntime/src/worker/mod.rs:388-407 | completion means the supervisor is closed and the slot gone; a failed cleanup leaves an unclosed supervisor its slot |
| Manager.WorkerManager.BeginShutdown | crates/tinyruntime/src/worker/mod.rs:412-423 | every worker is told to stop and exactly the prepared ones are collected to be waited for |
| Manager.WorkerManager.AwaitAll | crates/tinyruntime/src/worker/mod.rs:424-427 | completeness means every collected supervisor is closed at the end of the wait |
| Manager.WorkerManager.Shutdown | crates/tinyruntime/src/worker/mod.rs:411-434 | completion means the book is empty and every supervisor ever started is closed |
| PoolModel.NextKeepsInv | crates/tinyruntime/src/pool/lang_pool.rs:110-303 | every step of every run and of the reaper conserves permits, keeps each worker in one place, within budget and counted |
| PoolModel.WorkersAndAdmissionsAreBounded | crates/tinyruntime/src/pool/lang_pool.rs:110-148 | under every interleaving idle workers and workers held or committed to never exceed the maximum, and admitted runs never exceed workers plus queue |
| PoolModel.RecyclingBoundsJobs | crates/tinyruntime/src/pool/lang_pool.rs:220-272 | with a budget every parked worker has room for a job, none exceeds the budget, and the jobs counted never exceed budget times spawns |
| PoolModel.QuiescentPoolIsWhole | crates/tinyruntime/src/pool/lang_pool.rs:305-312 | when every run has left nothing has leaked: permits, count and job total are whole |
| LangPool.OthersLeaveARunAlone | crates/tinyruntime/src/pool/lang_pool.rs:110-303 | no step of another run or of the reaper moves a run or touches its worker |
| LangPool.LangPool.Admit | crates/tinyruntime/src/pool/lang_pool.rs:110-122 | a run is admitted exactly when the count it read was below capacity |
| LangPool.LangPool.TakeOrCommit | crates/tinyruntime/src/pool/lang_pool.rs:239-261 | under the idle lock a run gets the last parked worker that is neither expired nor dead, or, exactly when there is none, is committed to a spawn with the list empty |
| LangPool.LangPool.FinishSpawn | crates/tinyruntime/src/pool/lang_pool.rs:264-272 | a failed spawn leaves its run without a worker |
| LangPool.LangPool.RetireOrPark | crates/tinyruntime/src/pool/lang_pool.rs:220-231 | a worker is recycled exactly when it served its budget and parked otherwise |
| LangPool.LangPool.Abandon | crates/tinyruntime/src/pool/lang_pool.rs:305-312 | a caller that goes away at any await leaves its run only to be counted out |
| LangPool.LangPool.Exchange | crates/tinyruntime/src/pool/lang_pool.rs:193-217 | whatever the exchange does, the run gives up or returns its worker, a success is the first answer's, and an error tells the truth about what was sent |
| LangPool.LangPool.Run | crates/tinyruntime/src/pool/lang_pool.rs:104-160 | a call always leaves the pool, is refused as saturated exactly at capacity, and reports a retryable error only when no complete frame went out |
| LangPool.LangPool.Reap | crates/tinyruntime/src/pool/lang_pool.rs:279-302 | reaping keeps exactly the parked workers that have not expired, in order |
| PoolWorker.AwaitResponse | crates/tinyruntime/src/pool/worker.rs:282-326 | a returned reply is the first that answers, every failure is terminal, and a job is counted exactly when answered |
| PoolWorker.Submit | crates/tinyruntime/src/pool/worker.rs:253-276 | a failure is retryable exactly when only a strict prefix of the line went out |
| PoolWorker.FramesOfAttempt | crates/tinyruntime/src/pool/worker.rs:93-124 | an attempt puts one complete frame on the wire exactly when it delivered the whole line |
| PoolWorker.ResubmittingDeliversOnce | crates/tinyruntime/src/error/mod.rs:134-142 | a caller that resubmits while the error is retryable causes at most one complete frame in all, and exactly one when the last answer is final |
| InstallNames.SharedAsideIff | crates/tinyruntime/src/store/mod.rs:154-159 | two destinations share an aside name exactly when the same process replaces both and they share a lock |
| InstallNames.AsideIsApart | crates/tinyruntime/src/store/mod.rs:154-159 | an aside name is never an install directory's or a staging directory's |
| InstallNames.RolesAreDistinct | crates/tinyruntime/src/store/lock.rs:39-40 | names of different roles are different strings, so telling them apart by role loses nothing |
| InstallModel.NextKeepsOrderly | crates/tinyruntime/src/resolve/install.rs:37-82 | every step, crash and abandonment, without any condition, keeps each unpacked tree its install's own until it is placed, staging directories distinct, and each lock with one install |
| InstallModel.NextKeepsSound | crates/tinyruntime/src/store/mod.rs:139-184 | every operation, a caller going away among them, keeps all destinations whole and all moved-aside trees complete, from any state in which installs that are replacing a previous one have aside names of their own |
| InstallModel.NextKeepsInv | crates/tinyruntime/src/store/mod.rs:139-184 | every operation, crash and abandonment keeps each install alone with its names and all trees whole, if a lock is taken only when no promotion that let go of it is on its way |
| InstallModel.RunKeepsInv | crates/tinyruntime/src/store/mod.rs:139-184 | the same over whole runs |
| InstallModel.StemsKeepAsidesApart | crates/tinyruntime/src/store/lock.rs:39-73 | installs that are alone under their locks have aside names of their own |
| InstallModel.GuardKeepsReplacersApart | crates/tinyruntime/src/store/lock.rs:39-73 | if no lock is taken while another install is replacing a previous one under its aside name, no two installs ever do so under one aside name |
| InstallModel.DestinationsAreNeverHalf | crates/tinyruntime/src/store/mod.rs:139-184 | at every step of every such run, crashes and abandoned callers included, a destination is absent or one complete tree |
| InstallModel.LocksAreGuardEnough | crates/tinyruntime/src/store/lock.rs:39-73 | in runs in which no caller goes away inside a promotion the lock files alone are guard enough for every promise made of installs here |
| InstallModel.LockedDestinationsAreNeverHalf | crates/tinyruntime/src/store/mod.rs:139-184 | so in those runs destinations are never half, without further condition |
| InstallModel.DestinationsChangeByRenameOnly | crates/tinyruntime/src/store/mod.rs:154-178 | from any state with its trees in order, abandoned promotions included, a destination changes only by being moved aside whole, by the tree unpacked for it, or by the previous tree coming back, each by an install of that destination |
| InstallModel.RestoredPromotionChangesNothing | crates/tinyruntime/src/store/mod.rs:164-178 | a failed promotion whose restoring rename succeeds leaves exactly the tree that was there before, whatever others did in between and whoever went away, as long as no two installs replaced under one aside name until then |
| InstallModel.AtMostOnePromotes | crates/tinyruntime/src/resolve/install.rs:37-81 | with fixed settings and nothing deleted from outside at most one install of a destination promotes, however many race and whoever goes away, if no lock is taken while another install has yet to place its tree there |
| InstallHazard.Collide | crates/tinyruntime/src/store/mod.rs:154-178 | from any state with one install whose previous tree is at stake under an aside name and another about to delete there, half a tree can follow |
| InstallHazard.HalfATreeCanFollowIff | crates/tinyruntime/src/store/mod.rs:154-178 | in any state of a guarded run, with any number of other installs, half a tree can follow from taking a lock now, even if everybody keeps to the guard afterwards, if and only if another install is replacing a previous one under that aside name |
| InstallTwice.SecondPromotionCanFollowIff | crates/tinyruntime/src/resolve/install.rs:37-81 | likewise a second promotion can follow from taking the lock now if and only if another install has yet to place its tree there |
| InstallReach.AbandonedPromotionCanLeaveHalfATree | crates/tinyruntime/src/blocking/mod.rs:22-38 | from every root and for every installed destination there is a run in which an install was waiting, another was abandoned inside its promotion, and half a tree is left though no install began afterwards |
| InstallReach.AbandonedPromotionCanBeRepeated | crates/tinyruntime/src/blocking/mod.rs:22-38 | from every root, for every destination not installed and any two processes, there is such a run with two promotions under an honest provider, with every lock taken while its aside name was idle |
| Installer.OthersLeaveAnInstallAlone | crates/tinyruntime/src/store/lock.rs:39-73 | no step of another install, abandoned or not, touches an install that has its lock, or any of its names |
| Installer.OthersLeaveNoneBehind | crates/tinyruntime/src/store/lock.rs:39-73 | an install that waits finds no promotion left behind under its lock unless a caller goes away inside a promotion under that very lock |
| Installer.OthersLeaveAnIdentifierAlone | crates/tinyruntime/src/store/mod.rs:80-92 | a staging identifier that nobody else generates stays free until it is used |
| Installer.CacheRoot.PromoteBlocking | crates/tinyruntime/src/store/mod.rs:139-184 | success puts the new tree in place; a failure leaves the destination as it was, unless placing and restoring both fail, and then the old tree is still complete aside |
| Installer.CacheRoot.Replace | crates/tinyruntime/src/store/mod.rs:154-184 | the same over a previous install, with the others acting between any two renames |
| Installer.CacheRoot.TryLock | crates/tinyruntime/src/store/lock.rs:58-67 | the lock is had exactly when no install with the same lock file holds it |
| Installer.CacheRoot.Provision | crates/tinyruntime/src/resolve/install.rs:40-82 | under the lock every result says what became of the destination since the lock was taken |
| Installer.CacheRoot.UnpackAndPromote | crates/tinyruntime/src/resolve/install.rs:59-81 | a failed unpack changes nothing at the destination, and the staging directory is discarded either way |
| Installer.CacheRoot.Run | crates/tinyruntime/src/resolve/install.rs:27-82 | against any number of others, abandoned ones under other locks included, the result says what became of the destination, and the lock is let go at the end |

## Left out

- The bus, provider proxies, JSON encoding and decoding, payload structs: a frame decoder and an encoding are parameters; encodings have no raw newline.
- SHA-256, UUIDs and the clock are an injective function, fresh names and a number that only grows.
- Real processes, process groups, permissions, links being swapped during an operation, directory binding: `check_binding` is a free outcome, and file operations take effect whole or fail.
- CacheStaging.Staging.Cleanup: a directory that is removed by others and replaced by one that the system gives the same device and inode counts as the same, as it does for the source.
- CacheSession.Disk.RunCommand: commands and programs outside may change everything except the lock, sidecars, staging directories and, beyond removing it, the marker; a command that forges a marker is not modelled.
- CacheProtocol.CachedOnlyAfterPublication: only for recipes none of whose artifacts is a marker of the scope, because otherwise it is false (`CrashSafety.CrashSafeIff`).
- CrashSafety.OverlapRestores: the machine lets a session promote its artifacts in any order. The source goes in list order, so where the overlapping artifact is not the first, the run also needs the ones before it to leave the other recipe's payload alone.
- CrashSafety.CrashSafeIff: for pairs in which the first recipe needs nothing at or below the second one's marker path; where both list each other's files only the sufficient condition is proved. The same goes for `CrashSafety.NeverReadoptedIff`.
- CachePublication.CommandsCompleteAtMostOnce: for runs in which the checks that come before the promotion of a sidecar and before an adoption still hold at the rename; a program outside that breaks the payload between check and rename makes another install necessary.
- CacheStaging.Session.Cleanup: the cleanup of `CacheSession.Session` once more, for a world in which names can be rebound; that the two agree where nobody rebinds is not proved.
- CacheTree.ReadinessIff: read errors other than a missing entry are left to the file operations; readiness itself reads a consistent tree.
- InstallModel.DestinationsAreNeverHalf: only for runs in which no lock is taken while another install is replacing a previous one under its aside name, because otherwise it is false (`InstallHazard.HalfATreeCanFollowIff`). The aside directory itself is deleted bit by bit and nothing is claimed about it afterwards.
- InstallHazard.HalfATreeCanFollowIff: where the other install's next rename can succeed as things stand, and the destination under the lock is there or about to be put there by it. An install whose renames are bound to fail does no harm, nor does one that has nothing to replace; these are not told apart further.
- InstallTwice.SecondPromotionCanFollowIff: likewise where what the other install found when it looked is still so.
- InstallModel.AtMostOnePromotes: the provider answers by the settings alone and accepts what it selected; and only for runs in which no lock is taken while another install has yet to place its tree there, because otherwise it is false (`InstallTwice.SecondPromotionCanFollowIff`).
- Installer.CacheRoot.Run: nobody goes away inside a promotion under this install's own lock before it has it (`Installer.OthersLeaveNoneBehind`); the caller of this install itself stays.
- Install directories named like lock files, aside directories or staging directories, and programs outside that write into the cache root.
- Supervisor.Actor.Close: the closing loop, and likewise the polling and waiting loops of `Acquire`, `WaitClosed`, `Stop`, `Shutdown`, `AwaitPermit` and `Installer.CacheRoot.Acquire`, are given up after a number of rounds that is a parameter, because the source may go round them for ever.
- Supervisor.Actor.Run: a panic inside the supervisor is covered only in that `Close` starts from any suspension point.
- Manager.WorkerManager.Prepare: the wait for the preparation's outcome, which only reads, and `prepare_cached`'s lookup of the scope; dropping the manager, which tells every slot to stop.
- Manager.WorkerManager.Submit: the length of the command queue; whether it has room is a free outcome.
- PoolModel.NextKeepsInv: an operating-system process may outlive its `Worker` object for a moment; the bound is on worker objects and spawn commitments. The semaphore is never closed.
- LangPool.LangPool.Run: timings and the assembled response.
- Paths.SafePathsStayBelow: lengths count characters, which are bytes for the ASCII paths the limits are about; Windows prefixes and Windows system directories are not modelled.
- Scopes.Check: the commands of a recipe are checked elsewhere (worker/validate.rs:7-38).
- Download and verification of archives, extraction, toolchain reuse scanning, memoisation of resolutions, the Python server slot (which repeats the supervisor more simply), and pool fingerprints: they would add only easy members.
