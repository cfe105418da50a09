# EdgePlane: models and proofs

EdgePlane is a control plane for fleets of software agents: a tower that hands out tasks, a
command line and a node daemon around it, an MCP gateway, and a terminal plugin. This project
models the parts of it whose correctness is a matter of state, interleaving or exact text,
and proves what they promise. Where the code does not keep a promise in every case, the code
is modelled as it is, a lemma shows the failing case, and another says exactly when the promise holds.

## The tower's task protocol

`TaskLeases` models claimable tasks. Every request handler is cut into the database statements
it runs, each statement is one atomic step, and what a handler remembers between two of its
statements is kept in `inflight`; a run is any sequence of steps, so it is any interleaving of
any number of requests: claims over REST (two statements) and MCP (one), heartbeats, progress,
completion, failure, blocking, cancelling, retrying, expiry sweeps, review gates, dispatch, and
the scan that readies dependents. `log` is history: claims that won and requests let through.

* `TaskLeaseSafety`: no superseded claimer ever acts; a dead lease never becomes current again.
* `TaskLifecycle`: a task is claimed at most once each time it becomes ready; expiry requeues it
  a bounded number of times; and finished is final exactly when no request in flight still holds
  a stale read.
* `TaskClaims`: a live claim survives what others do exactly when no dispatch or scan for
  dependents in flight threatens its task.
* `TaskGates`: no finished task has a gate pending, exactly as long as no dispatch is written
  while one is.
* `TaskReadiness`: the dependency graph of every run is acyclic, and no scan readies a task that
  lists a dependency twice.
* `TaskScans`: when some order, and when every order, of the scans in flight readies a task.
* `TaskWakeUps`: no task is left pending on finished dependencies with nothing in flight to
  ready it, exactly as long as no dispatch and no stale insert loses its wake-up.
* `TaskDecisions`: a gate shows the one decision on it, and a rejection never finishes a task.
* `TaskEffects`: what each request does to its row, and how long a lease lasts.
* `DependencyGraph`: the in-place depth-first cycle check, proved against walks in the graph.
* `WatchTask`: the progress poller against a tower that keeps running between its requests.

Where comment and code disagree the code is followed: the comment on the sweep
(`crates/edgeplane-tower/src/routes/work.rs:497-500`) speaks of one attempt by default, the
column's default is three (`crates/edgeplane-tower/migrations/0014_unify_task_meshtask.sql:45`).

## Text formats

* `StdioFraming` and `StdioRoundTrip`: the MCP stdio reader and writer over bytes, with UTF-8,
  white space and decimal lengths from `Bytes`; `StdioHeaders` has the header names letter by
  letter, and `Utf8` the byte tables by code point.
* `ManagedBlock`, `ManagedBlockFixpoint`, `TomlString`: rewriting the managed block of a Codex
  configuration, and the escaping of its values, against a reader of basic strings as in TOML
  v1.0.0, section "String"; `CodexFile` reads the settings back from the written file.
* `ControlPipe`, `PanePlugin`: pane references, request lines and the plugin serving them.
* `SlugHostname`: host name slugs.

## Caches, sessions and views

* `NodeScopeCache`, `NodeScopeOrder`: the tower's cache of node scopes with resolves,
  invalidations and time; the order of a node's answers, and what an outage answers.
* `McpServer`, `McpSession`, `McpReplies`: the tool cache, its retry task, the gateway's message
  loop, and what it answers.
  The comment on a failed fetch speaks of an empty list
  (`crates/edgeplane/src/mcp_server.rs:542-545`); the code answers the two gateway tools.
* `Dashboard`: the agent table and event tail under polls and events in any order.

## Files and stores

* `ProfileMerge`: recursive copy and merge of directory trees.
* `LegacyHeal`: relocation of legacy files when every operation may fail.
* `RetentionGc`: what profile garbage collection keeps.
* `ManifestImport`: the registry import, names repeated or not.
* `ProfileStore`: the daemon's profile store, replaced through one temporary file that
  overlapping commands share.
* `CmdTree`: the command tree behind `discover`.

Objects the source updates in place are classes whose methods are proved against functions or
predicates on values; the lemmas are about those. `Options` holds the optional value.

## What the proofs turned up

* A finished broadcast task can be set running or ready again by a claim or a dependents' scan
  that read it earlier (`FinishedIsFinal`, `LateBroadcastClaimReopens`).
* A live claim is ended by its creator's dispatch, or by a second scan for dependents, when these
  read the task before it was claimed (`LiveClaimSurvivesIff`, `DispatchEndsLiveClaim`,
  `SecondScanEndsLiveClaim`, `ScansDoRace`).
* A dispatch finishes a task whose review is pending (`DispatchSkipsReview`).
* A wake-up is lost in two ways: a dispatch finishes the last dependency (`DispatchLosesWakeUp`),
  or a task is inserted as pending behind the last scan (`StaleInsertLosesWakeUp`); in no other
  (`NoneLostIffNeverLoses`).
* No scan for dependents readies a task that lists a dependency twice (`DuplicateIsNeverReadied`),
  and a gate rejected before a retry fails the retried task (`ApprovingLastGate`).
* A resolve that has read before an invalidation puts the old scope back
  (`InvalidationIsEffective`), and crossing resolves can leave the older answer
  (`OlderAnswerCanReturn`; exactly when, `AnswersInOrderIff`).
* A header block cut inside its blank line is taken for an empty message when the length named
  last is zero (`CutInsideBlankLine`, `CutBlockIsMessageIff`).
* Four MCP methods answer messages that carry no id, with a null id (`MessagesWithoutIdAnswered`);
  after a warm-up the tool list lacks the gateway tools (`WarmUpHidesMeta`).
* A legacy file whose copy broke off stays truncated for good (`BrokenCopySticks`,
  `LaterHealRepairsIff`).
* Rewriting a configuration is not a fixed point when a kept line ends in a carriage return of
  its own (`RewriteIsIdempotent`).
* `created` overstates the agents added when a new name repeats (`CreatedCountsRows`).
* Overlapping profile commands publish an empty, a foreign or an unreadable state file
  (`RenamePublishesNothing`, `RenamePublishesOther`, `RenamePublishesMixture`) and lose updates
  (`CommitKeepsProfileIff`).
* `profile use` of a profile with an empty name does nothing while none is active
  (`NamelessIsNotUsed`, `UseActivatesIff`).
* A path given to `discover` enters hidden commands (`WalkShownIff`).

## Model

| member | source | states |
|---|---|---|
| DependencyGraph.DetectCycle | crates/edgeplane-tower/src/routes/work.rs:530-578 | answers true if and only if some walk along dependencies from the new task returns to a task it has visited |
| DependencyGraph.GreyMeansCycle | crates/edgeplane-tower/src/routes/work.rs:553-578 | meeting a task still on the search path proves a real cycle |
| DependencyGraph.WalkGoesBackInTime | crates/edgeplane-tower/src/routes/work.rs:553-578 | every walk out of a finished node meets only nodes finished earlier |
| DependencyGraph.FinishedHasNoCycle | crates/edgeplane-tower/src/routes/work.rs:553-578 | no cycle is reachable from a node the search has finished |
| DependencyGraph.InsertKeepsAcyclic | crates/edgeplane-tower/src/routes/work.rs:717-826 | inserting a task under a fresh id keeps the graph acyclic whatever it depends on, so racing inserts cannot build a cycle together |
| DependencyGraph.RejectsOnlySelfDependency | crates/edgeplane-tower/src/routes/work.rs:762-775 | on an acyclic graph the check rejects a fresh task exactly when it lists itself |
| TaskReadiness.RunIsAcyclic | crates/edgeplane-tower/src/routes/work.rs:717-826 | over every run, whatever inserts race, no task depends on itself through others and every dependency exists |
| TaskReadiness.AlwaysAcyclic | crates/edgeplane-tower/src/routes/work.rs:717-826 | the same from the empty tower on, with no assumption left |
| TaskLeaseSafety.StepShape | crates/edgeplane-tower/src/routes/task_transitions.rs:290-660 | each statement only drops leases and claimers silently, logs one request justified by the latest claim, or issues one new lease |
| TaskLeaseSafety.RunIsSafe | crates/edgeplane-tower/src/routes/task_transitions.rs:214-233 | over every run each row shows the lease and claimer of its latest claim or none, leases are distinct, and every logged request was justified |
| TaskLeaseSafety.NoSupersededClaimer | crates/edgeplane-tower/src/routes/task_transitions.rs:190-233 | in every run each request let through without a bypass comes from the winner of a claim, or bears its lease, with no later claim of the task in between |
| TaskLeaseSafety.DeadLeaseStaysDead | crates/edgeplane-tower/src/routes/work.rs:484-526 | a lease that has stopped being a task's current one never validates again |
| TaskLifecycle.LiveClaimNotStolen | crates/edgeplane-tower/src/routes/work.rs:1170-1241 | in one step, a live claim is ended only by its claimer, the bearer of its lease or a bypass caller, or by a dispatch or scan that read the task earlier; these two leave its lease |
| TaskClaims.LiveClaimSurvivesIff | crates/edgeplane-tower/src/routes/work.rs:1487-1547 | through every run of others within the lease, a live claim without broadcast keeps its task at work, its agent and its lease, if and only if no dispatch that read the task ready and no dependents' scan that selected it is in flight |
| TaskClaims.SecureRun | crates/edgeplane-tower/src/routes/work.rs:1066-1241 | with none in flight, everything others do within the lease leaves the row exactly as it is |
| TaskClaims.ThreatEndsClaim | crates/edgeplane-tower/src/routes/work.rs:584-636 | from every state with one in flight, some run of others ends the claim at once |
| TaskClaims.DispatchEndsLiveClaim | crates/edgeplane-tower/src/routes/work.rs:1535-1547 | a run from the empty tower in which the creator's dispatch finishes the task under its claimer |
| TaskClaims.SecondScanEndsLiveClaim | crates/edgeplane-tower/src/routes/work.rs:619-632 | of two armed scans the second readies a claimed task: the holder is shut out before its lease runs out, and another agent takes over |
| TaskClaims.ScansDoRace | crates/edgeplane-tower/src/routes/work.rs:584-636 | a run from the empty tower that arms two scans for one task |
| TaskLifecycle.OneClaimPerReadiness | crates/edgeplane-tower/src/routes/work.rs:1178-1222 | however claimers race, at most one exclusive claim succeeds each time the task becomes ready |
| TaskLifecycle.BoundedRequeues | crates/edgeplane-tower/src/routes/work.rs:504-526 | over any run, operator retries included, expiry puts a task back at most two times |
| TaskEffects.RestClaimLasts | crates/edgeplane-tower/src/routes/work.rs:1119-1134 | the holder of a claim over REST is let through for two minutes and not a second longer |
| TaskEffects.McpClaimLasts | crates/edgeplane-tower/src/routes/mcp.rs:695-760 | an MCP claim holds for the seconds asked for, cut to between a minute and an hour |
| TaskEffects.HeartbeatRenews | crates/edgeplane-tower/src/routes/task_transitions.rs:310-338 | a heartbeat that is let through makes it two minutes from now, for the same holder |
| TaskEffects.BroadcastNeverLapses | crates/edgeplane-tower/src/routes/task_transitions.rs:190-233 | the lease of a broadcast task at work is good after any pause |
| TaskEffects.SweepTakesBack | crates/edgeplane-tower/src/routes/work.rs:504-526 | a sweep takes exactly the lapsed exclusive claims of its mission off their holders, ready again or, out of attempts, failed; no other row changes |
| TaskEffects.ThirdLapseFails | crates/edgeplane-tower/src/routes/work.rs:504-526 | a task may lapse twice; the third lapse fails it |
| TaskEffects.CompletionTakesEffect | crates/edgeplane-tower/src/routes/work.rs:1335-1395 | who may complete, and what a completion leaves: review with the claim kept while a gate is pending, otherwise a finished task credited to its claimer and a scan started |
| TaskEffects.FailureTakesEffect | crates/edgeplane-tower/src/routes/work.rs:1396-1437 | a failure by whoever may end the work leaves the task failed, without a claim, credited to its claimer, and starts no scan |
| TaskEffects.ProgressTakesEffect | crates/edgeplane-tower/src/routes/work.rs:1286-1334 | progress of a live claim is recorded word for word under its agent behind what is there, and touches no row |
| TaskEffects.ScanSelects | crates/edgeplane-tower/src/routes/work.rs:584-611 | a scan looks at exactly the pending and blocked tasks of the mission that list the finished one |
| TaskEffects.ScanArms | crates/edgeplane-tower/src/routes/work.rs:611-632 | and writes a candidate exactly when every dependency is finished and none is listed twice |
| TaskEffects.OtherRowsStay | crates/edgeplane-tower/src/routes/task_transitions.rs:290-660 | no statement but a sweep writes a row it is not about |
| TaskGates.ReviewedIffNoDispatchSkips | crates/edgeplane-tower/src/routes/work.rs:1487-1547 | over every run, no finished task ever has a gate pending if and only if no dispatch is written while a gate of its task is pending |
| TaskGates.ReviewsFromEmpty | crates/edgeplane-tower/src/routes/work.rs:1487-1547 | the same from the empty tower on |
| TaskGates.DispatchSkipsReview | crates/edgeplane-tower/src/routes/work.rs:1487-1547 | a run from the empty tower that ends with a finished task whose gate is pending |
| TaskLifecycle.ApprovingLastGate | crates/edgeplane-tower/src/routes/work.rs:1827-2030 | approving the last pending gate finishes the task exactly when no gate of it was ever rejected |
| TaskDecisions.RejectionFails | crates/edgeplane-tower/src/routes/work.rs:1827-2030 | rejecting a pending gate of a task in review leaves the gate rejected and the task failed, without claim or lease, and starts no scan |
| TaskDecisions.ApprovalTakesEffect | crates/edgeplane-tower/src/routes/work.rs:1827-2030 | an approval fails the task if a gate was ever rejected, leaves it waiting while another is pending, and otherwise finishes it and starts the scan |
| TaskDecisions.OnlyOwnersDecide | crates/edgeplane-tower/src/routes/work.rs:1886-1899 | a resolution by anyone but the owner of a pending gate or an administrator changes nothing |
| TaskDecisions.GateShowsDecision | crates/edgeplane-tower/src/routes/work.rs:1886-1899 | over every run a gate is decided at most once and shows that decision |
| TaskDecisions.RejectedNeverFinishes | crates/edgeplane-tower/src/routes/work.rs:1975-1995 | in every run a resolution finishes a task only if none of its gates was ever decided by a rejection |
| TaskLifecycle.DepsFinishedIffDistinct | crates/edgeplane-tower/src/routes/work.rs:612-624 | the readiness test holds exactly when every dependency is finished and none is listed twice |
| TaskReadiness.DuplicateIsNeverReadied | crates/edgeplane-tower/src/routes/work.rs:611-632 | in no run does a dependents' scan write a task that lists a dependency twice |
| TaskScans.SomeOrderReadiesIff | crates/edgeplane-tower/src/routes/work.rs:584-636 | a pending task whose dependencies are finished can be readied by some order of the scans in flight if and only if one is about to write it, or has still to look at it and is not about to reopen a dependency |
| TaskScans.EveryOrderReadiesIff | crates/edgeplane-tower/src/routes/work.rs:584-636 | every order in which the scans in flight run to their end readies it if and only if one is about to write it, or one has still to look at it and none can reopen a dependency |
| TaskWakeUps.NoneLostIffNeverLoses | crates/edgeplane-tower/src/routes/work.rs:584-669 | over every run, some scan has still to attend to each pending task whose dependencies are finished and distinct, if and only if no dispatch finishes the last dependency of an unattended task and no task is inserted as pending behind the last scan of its dependencies |
| TaskWakeUps.WakeUpsFromEmpty | crates/edgeplane-tower/src/routes/work.rs:584-669 | the same from the empty tower on; then, whenever the scans have run to their end, every pending task waits for an unfinished dependency or lists one twice |
| TaskWakeUps.StaleInsertLosesWakeUp | crates/edgeplane-tower/src/routes/work.rs:648-826 | a run from the empty tower in which a dependency is open when a new task's status is decided, and finished and scanned for when the task is inserted as pending |
| TaskWakeUps.DispatchLosesWakeUp | crates/edgeplane-tower/src/routes/work.rs:1487-1547 | a run from the empty tower that leaves a task pending with its dependency finished and nothing in flight to ready it |
| TaskLifecycle.UnarmedRun | crates/edgeplane-tower/src/routes/work.rs:584-636 | a finished task no stale reader is armed against stays finished through every run |
| TaskLifecycle.ArmedCanUndo | crates/edgeplane-tower/src/routes/work.rs:584-636 | from any state with such a reader some run overwrites the finished status |
| TaskLifecycle.FinishedIsFinal | crates/edgeplane-tower/src/routes/work.rs:1131-1150 | finished is final through every continuation if and only if no broadcast claim or dependents' scan in flight holds a stale read of the task |
| TaskLifecycle.LateBroadcastClaimReopens | crates/edgeplane-tower/src/routes/work.rs:1119-1150 | of two claims of a broadcast task, one written after the other's completion sets the finished task running |
| WatchTask.ProgressRun | crates/edgeplane-tower/src/routes/task_transitions.rs:339-419 | over any run the progress of each task is numbered without gaps and only grows at its end |
| WatchTask.SinceIsSuffix | crates/edgeplane-tower/src/routes/work.rs:1632-1693 | asking for events above a number returns exactly the rest of the log, in order |
| WatchTask.RoundGrows | crates/edgeplane/src/daemon_ctl.rs:1538-1572 | what has been printed remains a prefix of the log while the tower runs between the poller's two requests |
| WatchTask.PrintPage | crates/edgeplane/src/daemon_ctl.rs:1551-1565 | printing a page that continues the printed list keeps the last number one below its length |
| WatchTask.Watch | crates/edgeplane/src/daemon_ctl.rs:1533-1574 | every event is printed once and in order; on its own end the status read was terminal and everything recorded before that read is printed |
| StdioFraming.Reader.ReadNextMessage | crates/edgeplane/src/mcp_stdio.rs:10-37 | returns the next message of the stream and leaves exactly the bytes after it |
| StdioFraming.Reader.ReadContentLength | crates/edgeplane/src/mcp_stdio.rs:58-91 | reads a header block to its blank line and nothing more |
| StdioFraming.Writer.WriteMessage | crates/edgeplane/src/mcp_stdio.rs:39-56 | appends one frame and leaves what was written |
| StdioRoundTrip.FrameRoundTrip | crates/edgeplane/src/mcp_stdio.rs:10-56 | a text comes back from before any continuation, consuming its own bytes only, if and only if its format can carry it |
| StdioRoundTrip.StreamRoundTrip | crates/edgeplane/src/mcp_stdio.rs:10-56 | any sequence of texts in any mix of formats is read back exactly, up to end of file, if and only if each is one its format carries |
| StdioRoundTrip.LineMessagesAreTrimmed | crates/edgeplane/src/mcp_stdio.rs:13-28 | from any stream, a message line has no outer white space and no line feed in it |
| StdioRoundTrip.HeaderBlockMeaning | crates/edgeplane/src/mcp_stdio.rs:58-91 | header lines in any order and case: the body is as long as the last Content-Length says, and without one there is no message |
| StdioHeaders.HeaderNameIff | crates/edgeplane/src/mcp_stdio.rs:76-88 | a header line names a length exactly when what stands before its first colon is, outer white space apart, the fourteen letters of Content-Length, each in either case; the length is what the rest parses to |
| StdioHeaders.AnyCaseHeaderReads | crates/edgeplane/src/mcp_stdio.rs:10-37 | any such header in front of a blank line and a body of that length is read as that body, and what follows is left |
| StdioHeaders.WireFormat | crates/edgeplane/src/mcp_stdio.rs:39-56 | the bytes of a frame in either format |
| StdioHeaders.BraceLineReads | crates/edgeplane/src/mcp_stdio.rs:18-28 | a line is a message of its own exactly when it opens with a brace |
| StdioHeaders.BadTextFails | crates/edgeplane/src/mcp_stdio.rs:13-23 | a line that is no UTF-8 is an error, as a first line and within a header block |
| StdioHeaders.LengthsFitWord | crates/edgeplane/src/mcp_stdio.rs:82-88 | a length is read exactly if it fits 64 bits |
| StdioRoundTrip.CutBlockIsMessageIff | crates/edgeplane/src/mcp_stdio.rs:58-91 | a header block cut off anywhere by end of file, its first line included, is a message, an empty one, if and only if the cut falls inside its blank line and the length named last is zero; otherwise it is an error, or the end of the input if only white space was left of it |
| StdioRoundTrip.CutBlockIsError | crates/edgeplane/src/mcp_stdio.rs:69-72 | a header block cut off between two lines is an error |
| StdioRoundTrip.CutInsideBlankLine | crates/edgeplane/src/mcp_stdio.rs:69-76 | the header of an empty message cut between the two bytes of its blank line reads as the message |
| StdioRoundTrip.WrittenHeaderReads | crates/edgeplane/src/mcp_stdio.rs:45-47 | a written header before any bytes: the length is read back, a short body and a length beyond the machine word are errors |
| Bytes.LossyIsIdentity | crates/edgeplane/src/mcp_stdio.rs:33-36 | lossy decoding leaves a body alone if and only if it is valid UTF-8 |
| Utf8.ValidIffEncoded | crates/edgeplane/src/mcp_stdio.rs:33-36 | a byte text is well-formed exactly when it is the encoding of some scalar values |
| Utf8.EncodingIsUnique | crates/edgeplane/src/mcp_stdio.rs:33-36 | two texts with one encoding are the same |
| Utf8.BadLenIsMaximal | crates/edgeplane/src/mcp_stdio.rs:33-36 | one replacement character stands for the longest beginning of a character found there, or for one byte |
| Utf8.LossyReplaces | crates/edgeplane/src/mcp_stdio.rs:33-36 | well-formed text in front is kept, the ill-formed bytes after it become one U+FFFD, and decoding goes on behind them |
| Utf8.LeadingSpaceIff | crates/edgeplane/src/mcp_stdio.rs:18-18 | trimming takes a character off the front exactly when it is white space by its code point |
| Utf8.TrailingSpaceIff | crates/edgeplane/src/mcp_stdio.rs:18-18 | and off the end |
| Bytes.DecimalWidth | crates/edgeplane/src/mcp_stdio.rs:45-47 | printed numbers use the ten digits, as many as the number is long in base ten |
| NodeScopeCache.SharedScopeCache.CachedNodeScope | crates/edgeplane-tower/src/auth.rs:41-52 | answers only from an entry younger than the time to live, and not from a poisoned map |
| NodeScopeCache.SharedScopeCache.InvalidateNodeScope | crates/edgeplane-tower/src/auth.rs:54-67 | removes the one node, and nothing for a blank id |
| NodeScopeCache.EveryAnswerJustified | crates/edgeplane-tower/src/auth.rs:69-106 | in every run every answer repeats an earlier database read of the node |
| NodeScopeCache.HitsAreRecentAnswers | crates/edgeplane-tower/src/auth.rs:39-52 | a hit repeats a database answer inserted less than fifteen seconds before, and read before that |
| NodeScopeCache.ScopeLivesFifteenSeconds | crates/edgeplane-tower/src/auth.rs:39-60 | a scope just inserted answers for less than fifteen seconds without the database; after that, and at once after an invalidation, the database is asked |
| NodeScopeOrder.OutageFailsClosed | crates/edgeplane-tower/src/auth.rs:88-94 | while every database request errs, each resolve is refused or repeats an entry the cache had at the start, within that entry's fifteen seconds, and nothing new is cached |
| NodeScopeCache.InvalidationIsEffective | crates/edgeplane-tower/src/auth.rs:54-106 | after an invalidation no run answers with an earlier read if and only if no resolve of the node had already read |
| NodeScopeCache.OlderAnswerCanReturn | crates/edgeplane-tower/src/auth.rs:78-103 | two crossing resolves can leave the older of two answers in the cache |
| NodeScopeOrder.CacheGoesBackIff | crates/edgeplane-tower/src/auth.rs:97-103 | a step puts an older read of a node over a newer one if and only if it finishes a resolve that holds an older one |
| NodeScopeOrder.AnswersInOrderIff | crates/edgeplane-tower/src/auth.rs:69-106 | from any state, a node's answers come in read order through every run whose resolves of it do not overlap, if and only if no two overlap already and none holds a read older than the fresh entry |
| NodeScopeOrder.SerialAnswersInOrder | crates/edgeplane-tower/src/auth.rs:69-106 | from the start, while resolves of a node do not overlap its answers never go back in time |
| McpServer.ToolsCache.Hit | crates/edgeplane/src/mcp_server.rs:90-94 | answers the stored list exactly while it is fresh |
| McpServer.ToolsCache.Store | crates/edgeplane/src/mcp_server.rs:546-563 | a backend list is stored with the gateway tools; a failure stores nothing and answers the gateway tools |
| McpServer.ToolsCache.RetryWarm | crates/edgeplane/src/mcp_server.rs:254-294 | succeeds exactly if one of six answers is usable, with the first such one, after at most ninety seconds of sleep |
| McpServer.SleepBefore | crates/edgeplane/src/mcp_server.rs:259-291 | the sleep before the n-th attempt adds up to 2, 6, 14, 30, 60, 90 seconds |
| McpReplies.RepliesFit | crates/edgeplane/src/mcp_server.rs:150-440 | over every run each reply has the body its message is due by its method: the version it asked for if that is known, the error codes, an empty result, a list or a call result |
| McpReplies.FetchedListing | crates/edgeplane/src/mcp_server.rs:529-564 | the written reply to a listing the backend is asked for carries the tools the cache then holds, the backend's in order and then the two of the gateway; if the backend fails, those two, and the cache stays |
| McpReplies.FreshListing | crates/edgeplane/src/mcp_server.rs:533-540 | a list is served as cached while its time lasts, and the backend asked as soon as it is over |
| McpReplies.CallIsAnswered | crates/edgeplane/src/mcp_server.rs:325-430 | a tool call is answered with the text and the error flag it returned |
| McpReplies.RetryWaits | crates/edgeplane/src/mcp_server.rs:254-294 | after an attempt in vain the next comes after the listed delay and no sooner |
| McpReplies.FirstRetryWaits | crates/edgeplane/src/mcp_server.rs:254-294 | the first comes two seconds after the warm-up |
| McpSession.StepOrdered | crates/edgeplane/src/mcp_server.rs:127-173 | every step keeps replies counted, addressed, framed and in order |
| McpSession.EveryRequestAnsweredOnce | crates/edgeplane/src/mcp_server.rs:177-470 | over every run a dispatched request with an id that is no cancellation has exactly one reply, with its id and framing, after those before it and ahead of the notification it causes |
| McpSession.MessagesWithoutIdAnswered | crates/edgeplane/src/mcp_server.rs:187-445 | a message without an id is answered, with a null id, if and only if it is one of four methods |
| McpSession.ListsNeverEmpty | crates/edgeplane/src/mcp_server.rs:528-564 | no tool list a client is given is empty, whatever the backend answers and when |
| McpSession.CacheIsLastStore | crates/edgeplane/src/mcp_server.rs:96-99 | over every run the cache holds exactly the last answer stored: a fetched list with the gateway tools added, a warm-up's as it came |
| McpSession.CachedListHasMetaIff | crates/edgeplane/src/mcp_server.rs:532-540 | a listing from a fresh cache ends with the gateway tools if and only if the last answer stored was a fetch's, or a warm-up's that ends with them itself |
| McpSession.WarmUpHidesMeta | crates/edgeplane/src/mcp_server.rs:232-240 | after a warm-up with one tool, a listing in time is that tool alone |
| McpSession.RetryTaskIsRetryWarm | crates/edgeplane/src/mcp_server.rs:254-294 | the retry task of the session makes the attempts of the retry loop, sleeps as long, and leaves the same list in the cache |
| McpSession.RetriesAreBounded | crates/edgeplane/src/mcp_server.rs:254-294 | in every run each retry task makes at most six attempts and sleeps at most ninety seconds |
| McpSession.BackgroundIsBounded | crates/edgeplane/src/mcp_server.rs:264-281 | background notifications never outnumber failed warm-ups |
| Dashboard.State.MergeSnapshot | crates/edgeplane/src/agent_supervise_watch.rs:178-188 | a poll replaces the rows and keeps the tail and the last event of each agent still listed |
| Dashboard.State.ApplyEvent | crates/edgeplane/src/agent_supervise_watch.rs:254-309 | an event keeps the tail the last lines of the whole stream and each row on the latest event since it last appeared |
| Dashboard.PollAgrees | crates/edgeplane/src/agent_supervise_watch.rs:178-188 | after a poll each row shows the latest event since its agent last appeared, or none |
| Dashboard.EventAgrees | crates/edgeplane/src/agent_supervise_watch.rs:274-278 | after an event the row of its agent shows it, and the others what they showed |
| Dashboard.QuietAgrees | crates/edgeplane/src/agent_supervise_watch.rs:274-278 | an event of one agent changes nothing another row shows |
| Dashboard.TailForgets | crates/edgeplane/src/agent_supervise_watch.rs:302-308 | once as many events have come in as the tail holds, nothing that came before them shows |
| Dashboard.LinesSay | crates/edgeplane/src/agent_supervise_watch.rs:254-309 | a line of the tail says the time, the kind of its event in ten columns and the agent, a restart its reason and result, in the colour of its kind |
| Dashboard.LabelsSay | crates/edgeplane/src/agent_supervise_watch.rs:254-278 | the table labels an event with the same word, or its kind in capitals |
| Dashboard.TimeOfDay | crates/edgeplane/src/agent_supervise_watch.rs:254-309 | of a timestamp the time of day is shown, without date, fraction or zone |
| ProfileMerge.Disk.CopyDirRecursive | crates/edgeplane/src/agent_harness.rs:803-829 | the destination becomes an exact copy and nothing else changes |
| ProfileMerge.Disk.MergeMissingDirEntries | crates/edgeplane/src/agent_harness.rs:831-863 | exactly the missing, unblocked entries are added, and the count is that of the topmost ones |
| ProfileMerge.MergePreservesAndCompletes | crates/edgeplane/src/agent_harness.rs:831-863 | nothing present changes; a missing path of the source appears exactly when no file of the destination blocks it |
| ProfileMerge.ZeroMeansUnchanged | crates/edgeplane/src/agent_harness.rs:831-863 | the count is zero exactly when the disk is unchanged |
| ProfileMerge.SecondMergeAddsNothing | crates/edgeplane/src/agent_harness.rs:831-863 | a second merge has nothing to add |
| ManagedBlock.StripManagedBlock | crates/edgeplane/src/codex.rs:575-594 | keeps exactly the lines outside every marked region, in order, without trailing white space |
| ManagedBlock.WriteCodexConfig | crates/edgeplane/src/codex.rs:554-573 | the new content is the kept text, an empty line and the block |
| ManagedBlock.RenderManagedBlock | crates/edgeplane/src/codex.rs:596-617 | the block is its lines, each ended by a line feed |
| ManagedBlockFixpoint.StripHasNoMarkers | crates/edgeplane/src/codex.rs:575-594 | stripped text holds no marker line and no trailing white space |
| ManagedBlockFixpoint.StripOfWritten | crates/edgeplane/src/codex.rs:554-594 | stripping after a write gives the kept text again if and only if no kept line ends in a carriage return |
| ManagedBlockFixpoint.WriteIsFixedPoint | crates/edgeplane/src/codex.rs:554-573 | writing twice is writing once if and only if the file was not empty and no kept line ends in a carriage return |
| ManagedBlockFixpoint.EmptySettlesAtSecondWrite | crates/edgeplane/src/codex.rs:554-573 | from the empty file the second write changes the file and the third does not |
| TomlString.TwoReplacesAreOne | crates/edgeplane/src/codex.rs:766-768 | the two successive replacements are one substitution per character |
| TomlString.EscapedReadsBack | crates/edgeplane/src/codex.rs:766-768 | an escaped value decodes to itself, its closing quote the first unescaped one, if and only if it has no control character |
| TomlString.CommandLineReadsBack | crates/edgeplane/src/codex.rs:605-605 | the value of the rendered command line is the command, with nothing after it |
| TomlString.EnvLineReadsBack | crates/edgeplane/src/codex.rs:609-612 | the value of the rendered URL line is the URL, with the end of its table after it |
| CodexFile.FileSetsValues | crates/edgeplane/src/codex.rs:554-617 | after the last begin marker of the written file exactly one line opens with the command's key and sets the command, and exactly one with the URL's and sets the URL |
| CodexFile.FileSetsDefaults | crates/edgeplane/src/codex.rs:596-617 | the other settings of the block stand there once, with their fixed values |
| TomlString.BlockIsRegion | crates/edgeplane/src/codex.rs:596-617 | whatever command and URL of one line, the block opens with the begin marker and only its last line is an end marker |
| TomlString.RewriteIsIdempotent | crates/edgeplane/src/codex.rs:554-617 | the fixed-point conditions for every command and URL of one line |
| LegacyHeal.Disk.MoveIfDestAbsent | crates/edgeplane/src/migrate.rs:50-87 | moves through the states of a rename, or of a copy and a removal, each of which may fail |
| LegacyHeal.Disk.HealLegacyCliPaths | crates/edgeplane/src/migrate.rs:25-42 | moves through the states of its four relocations in order |
| LegacyHeal.HealIsSafe | crates/edgeplane/src/migrate.rs:25-111 | at every intermediate step, whatever fails, no canonical item has changed and each legacy item is whole at its source or at a destination that was free |
| LegacyHeal.ManyHealsAreSafe | crates/edgeplane/src/migrate.rs:25-111 | the same at every intermediate step of any number of heals |
| LegacyHeal.HealSettles | crates/edgeplane/src/migrate.rs:25-111 | when every operation succeeds nothing is left for the next heal |
| LegacyHeal.HealChangesNothingIff | crates/edgeplane/src/migrate.rs:25-111 | a successful heal changes nothing if and only if there was nothing left to do |
| LegacyHeal.SettledStays | crates/edgeplane/src/migrate.rs:91-111 | with nothing left to do no heal changes anything at any step |
| LegacyHeal.HealRelocatesIff | crates/edgeplane/src/migrate.rs:50-87 | a successful heal relocates a legacy item if and only if its destination was free |
| LegacyHeal.HealPutsInPlace | crates/edgeplane/src/migrate.rs:25-42 | which canonical directory each legacy file goes to, under its own name |
| LegacyHeal.MoveLeaves | crates/edgeplane/src/migrate.rs:50-87 | what one move leaves at both places, for every way its operations may fail |
| LegacyHeal.OtherHomeFilesStay | crates/edgeplane/src/migrate.rs:21-24 | no heal touches any other file of the home directory |
| LegacyHeal.BrokenCopySticks | crates/edgeplane/src/migrate.rs:70-86 | after a copy that broke off no later heal touches the truncated file or the whole legacy one |
| LegacyHeal.HealLeaves | crates/edgeplane/src/migrate.rs:25-111 | what a heal leaves of a legacy item whose destination is free, for every way its operations may fail |
| LegacyHeal.LaterHealRepairsIff | crates/edgeplane/src/migrate.rs:12-15 | a later successful heal leaves the item whole at its destination if and only if the failed one did not break off its copy after writing part of it |
| RetentionGc.Directory.GcInstances | crates/edgeplane/src/maintenance.rs:117-145 | deletes everything after the cut in order, or stops before the first entry that cannot be deleted |
| RetentionGc.Directory.GcBundles | crates/edgeplane/src/maintenance.rs:149-172 | the same for the bundles of a profile |
| RetentionGc.PerformProfileGc | crates/edgeplane/src/maintenance.rs:111-183 | on success the instances and the bundles of every listed profile are retained as promised, other profiles untouched |
| RetentionGc.NewestFirstSorts | crates/edgeplane/src/maintenance.rs:122-128 | sorting and reversing lists the same entries, each once, newest first |
| RetentionGc.CutIsTheTest | crates/edgeplane/src/maintenance.rs:130-140 | position or age is one cut of the sorted list |
| RetentionGc.CutRetains | crates/edgeplane/src/maintenance.rs:133-144 | cutting there leaves exactly the smaller of the keep count and the young ones, none older than anything removed |
| RetentionGc.CollectionRetains | crates/edgeplane/src/maintenance.rs:117-145 | a collection that succeeds keeps that promise |
| RetentionGc.AgeDecidesAlone | crates/edgeplane/src/maintenance.rs:130-143 | with no more entries than are kept, exactly those more than the given days of 86,400 seconds old are removed |
| RetentionGc.SecondCollectionDeletesNothing | crates/edgeplane/src/maintenance.rs:117-145 | a second collection at the same instant deletes nothing, in whatever order the directory is read |
| RetentionGc.RetryCompletes | crates/edgeplane/src/maintenance.rs:140-143 | a collection that failed half way and is run again keeps what one undisturbed collection promises |
| ManifestImport.Registry.ImportManifest | crates/edgeplane/src/local_db.rs:239-336 | the tables are a last-writer-wins update of the named rows; created and updated add up to the profiles |
| ManifestImport.Registry.UnenrollBySource | crates/edgeplane/src/local_db.rs:195-205 | exactly the rows of the source are gone, and counted |
| ManifestImport.Registry.Reassign | crates/edgeplane/src/local_db.rs:130-138 | changes the domain of one local agent and nothing else |
| ManifestImport.ImportPreserves | crates/edgeplane/src/local_db.rs:277-328 | other sources, and the domain, capabilities, enrolment and pause switch of existing rows, are untouched |
| ManifestImport.ImportedColumns | crates/edgeplane/src/local_db.rs:277-328 | which columns the last profile of a name gives its two rows, and how a new row starts |
| ManifestImport.ReimportChangesNothing | crates/edgeplane/src/local_db.rs:236-239 | importing the same manifest again changes neither table |
| ManifestImport.ReimportCreatesNothing | crates/edgeplane/src/local_db.rs:327-331 | and reports nothing created |
| ManifestImport.CreatedCountsRows | crates/edgeplane/src/local_db.rs:327-331 | created is the number of new agents if and only if no new name repeats |
| ManifestImport.UnenrollUndoesImport | crates/edgeplane/src/local_db.rs:195-205 | unenrolling the source after an import leaves what unenrolling it before would have |
| SlugHostname.SlugOf | crates/edgeplane/src/daemon_ctl.rs:2289-2312 | the loop computes the lower-cased alphanumeric runs joined by single dashes |
| SlugHostname.SlugIsIdempotent | crates/edgeplane/src/daemon_ctl.rs:2286-2312 | a slug keeps the runs and is its own slug |
| SlugHostname.SameSlugIff | crates/edgeplane/src/daemon_ctl.rs:2286-2312 | two names share a slug exactly when they have the same runs |
| SlugHostname.SlugShape | crates/edgeplane/src/daemon_ctl.rs:2289-2312 | lower-case letters, digits and single inner dashes; empty exactly without any alphanumeric character |
| SlugHostname.WellFormedIsFixed | crates/edgeplane/src/daemon_ctl.rs:2289-2312 | every text of that shape is its own slug |
| SlugHostname.LettersKeepTheirPlace | crates/edgeplane/src/daemon_ctl.rs:2289-2312 | each upper-case letter becomes its own lower-case one |
| ControlPipe.ParsePaneRefIff | crates/edgeplane-zrpc-proto/src/lib.rs:311-323 | exactly which texts name a pane: kind, underscore, an optional plus, zeros, and a decimal within 32 bits |
| ControlPipe.PaneRefRoundTrip | crates/edgeplane-zrpc-proto/src/lib.rs:309-323 | parsing inverts printing for every 32-bit number and rejects the rest |
| ControlPipe.BadRefsSayWhy | crates/edgeplane-zrpc-proto/src/lib.rs:311-323 | exactly when a reference lacks its separator, its number or a known kind |
| ControlPipe.BuiltRequestsValidate | crates/edgeplane-zrpc-proto/src/lib.rs:67-171 | every built request validates to its call, save a line cap beyond the plugin's word |
| ControlPipe.InjectFields | crates/edgeplane-zrpc-proto/src/lib.rs:112-171 | a record injects exactly the text of its field on the pane of its field |
| ControlPipe.ScrollbackFields | crates/edgeplane-zrpc-proto/src/lib.rs:112-171 | a read may leave its cap out or write null; a cap fits 32 bits |
| ControlPipe.PositionalFields | crates/edgeplane-zrpc-proto/src/lib.rs:112-171 | parameters by position are as many as the call has, in its order |
| ControlPipe.PositionalScrollback | crates/edgeplane-zrpc-proto/src/lib.rs:112-171 | and for a read with or without its cap |
| ControlPipe.OtherMethodsFail | crates/edgeplane-zrpc-proto/src/lib.rs:112-171 | exactly the five methods are known |
| ControlPipe.PayloadsConcatenateIff | crates/edgeplane-zrpc-proto/src/lib.rs:175-183 | joined payloads hold the requests of both in order if and only if the first does not end in a carriage return on a line that counts |
| ControlPipe.PayloadsJoin | crates/edgeplane-zrpc-proto/src/lib.rs:175-183 | in every case joined payloads hold the lines of both in order, that one carriage return apart |
| PanePlugin.ZrpcPlugin.Pipe | crates/edgeplane-zrpc/src/main.rs:83-99 | appends the answers and the effects of the payload's lines in order, each line served on what the terminal shows by then |
| PanePlugin.ZrpcPlugin.Dispatch | crates/edgeplane-zrpc-proto/src/lib.rs:347-386 | one call has its outcome and its effect and no other |
| PanePlugin.OneResponsePerLine | crates/edgeplane-zrpc/src/main.rs:88-95 | exactly one response a line that is not blank, in order, with the request's id or none |
| PanePlugin.EffectIffAcknowledged | crates/edgeplane-zrpc/src/main.rs:127-140 | a line has an effect exactly when it is acknowledged, and at most one |
| PanePlugin.EffectIsTheCall | crates/edgeplane-zrpc/src/main.rs:127-140 | the effect is that of the valid call on the pane it names |
| PanePlugin.EffectsInOrder | crates/edgeplane-zrpc/src/main.rs:83-99 | a payload has one effect for each line that has one, in the order of the lines |
| PanePlugin.JoinedPayloads | crates/edgeplane-zrpc/src/main.rs:83-99 | serving two payloads joined by a line feed is serving one and then the other, to a reader of JSON, which ignores a carriage return at the end of a line |
| PanePlugin.CappedReadIsTail | crates/edgeplane-zrpc/src/main.rs:142-152 | a capped read returns the last lines of the pane, as many as there are up to the cap |
| PanePlugin.PaneIsReadWhole | crates/edgeplane-zrpc/src/main.rs:142-152 | without a cap the whole pane is returned, and the whole pane is classified |
| PanePlugin.BadPanesFail | crates/edgeplane-zrpc/src/main.rs:127-175 | a call that names no pane fails with the reason and does nothing |
| PanePlugin.SignalsInLetters | crates/edgeplane-zrpc-proto/src/lib.rs:273-300 | the prompt and the cross by their code points, the two words by their letters |
| PanePlugin.SpinnersByPoint | crates/edgeplane-zrpc-proto/src/lib.rs:273-300 | the spinner characters by their code points |
| PanePlugin.SignalLines | crates/edgeplane-zrpc-proto/src/lib.rs:273-300 | which lines show a prompt, work or an error, as texts around the signals |
| PanePlugin.ClassifyMeans | crates/edgeplane-zrpc-proto/src/lib.rs:273-300 | a prompt anywhere wins, then the first line with a signal, then unknown |
| CmdTree.SplitArguments | crates/edgeplane/src/cli_schema.rs:92-125 | one pass puts every shown argument on exactly one side, in order |
| CmdTree.ArgumentsShow | crates/edgeplane/src/cli_schema.rs:92-125 | each visible argument shows in its place, a flag under its long name or its own |
| CmdTree.OnlyVisibleShow | crates/edgeplane/src/cli_schema.rs:92-125 | and no other argument does |
| CmdTree.ShallowIsTruncated | crates/edgeplane/src/cli_schema.rs:82-152 | a node built to a depth is any deeper build cut off there |
| CmdTree.DiscoverToValue | crates/edgeplane/src/cli_schema.rs:162-189 | finds a node exactly when the whole path resolves; otherwise names the first token that does not |
| CmdTree.WalkIsChain | crates/edgeplane/src/cli_schema.rs:162-189 | a walk leads to a command exactly when a chain of subcommands bears the names of the path |
| CmdTree.UnknownIsFirst | crates/edgeplane/src/cli_schema.rs:162-189 | otherwise the token named is the first that no subcommand there bears |
| CmdTree.ShallowShowsOneLevel | crates/edgeplane/src/cli_schema.rs:162-189 | without deep a client sees one level below the node, and no more |
| CmdTree.DeepShowsAll | crates/edgeplane/src/cli_schema.rs:162-189 | with it, everything visible below |
| CmdTree.WalkThenBuild | crates/edgeplane/src/cli_schema.rs:162-189 | along a visible path walking and then building is building and then walking |
| CmdTree.WalkShownIff | crates/edgeplane/src/cli_schema.rs:171-175 | with unique names a walked path is one a client can see if and only if every command on it is visible |
| ProfileStore.StateFile.WriteState | crates/edgeplane/src/daemon_ctl.rs:2125-2151 | undisturbed, publishes the state and leaves no temporary file, whatever was left under its name |
| ProfileStore.StateFile.Add | crates/edgeplane/src/daemon_ctl.rs:2221-2253 | succeeds exactly for a new name, and saves the state with it |
| ProfileStore.StateFile.Remove | crates/edgeplane/src/daemon_ctl.rs:2363-2380 | succeeds exactly for a stored name; the active pointer is cleared if it pointed there |
| ProfileStore.StateFile.Rename | crates/edgeplane/src/daemon_ctl.rs:2383-2404 | succeeds exactly from a stored name to a free one |
| ProfileStore.StateFile.Use | crates/edgeplane/src/daemon_ctl.rs:2440-2466 | succeeds exactly for a stored name, and writes only if it was not active |
| ProfileStore.RunKeepsSoundIff | crates/edgeplane/src/daemon_ctl.rs:2078-2151 | however commands overlap, write into each other's files, fail or are abandoned, the active profile read is null or stored, if and only if the file did not start as a second-version one with a dangling pointer |
| ProfileStore.AddIsAnInsertion | crates/edgeplane/src/daemon_ctl.rs:2226-2253 | adding never overwrites, keeps the other entries, and makes a first profile active |
| ProfileStore.RefusedIff | crates/edgeplane/src/daemon_ctl.rs:2221-2466 | exactly which commands are refused |
| ProfileStore.UseActivatesIff | crates/edgeplane/src/daemon_ctl.rs:2440-2466 | using a stored profile makes it active and leaves the profiles alone, save the nameless one when none is active |
| ProfileStore.LastUseWinsIff | crates/edgeplane/src/daemon_ctl.rs:2440-2466 | using one profile and then another is using the other, in exactly the same cases |
| ProfileStore.NamelessIsNotUsed | crates/edgeplane/src/daemon_ctl.rs:2453-2460 | a run of commands after which the nameless profile is stored, none is active, and using it changes nothing |
| ProfileStore.FirstVersionReads | crates/edgeplane/src/daemon_ctl.rs:2078-2121 | a first-version file reads as one active profile with its login, or as no profile without all its parts |
| ProfileStore.RenameKeepsEntries | crates/edgeplane/src/daemon_ctl.rs:2383-2404 | renaming keeps the entries one for one and carries the active pointer |
| ProfileStore.RenameBackRestoresIff | crates/edgeplane/src/daemon_ctl.rs:2383-2404 | renaming back restores the state unless the pointer dangled on the other name |
| ProfileStore.AddThenRemoveRestoresIff | crates/edgeplane/src/daemon_ctl.rs:2221-2380 | removing what was added restores the state unless the active pointer was moved |
| ProfileStore.UndisturbedIsAtomic | crates/edgeplane/src/daemon_ctl.rs:2125-2151 | a command nothing comes between does what it does alone, whatever text was left under the temporary name |
| ProfileStore.FillTakesHoldIff | crates/edgeplane/src/daemon_ctl.rs:2132-2132 | a write leaves the command's own text whole under the temporary name if and only if the file still bears that name and nobody has put a longer text into it |
| ProfileStore.CommitInstallsIff | crates/edgeplane/src/daemon_ctl.rs:2132-2142 | once its write has taken hold, a command installs its own state if and only if no other opens, writes or renames the temporary file before its rename |
| ProfileStore.RenamePublishesNothing | crates/edgeplane/src/daemon_ctl.rs:2132-2142 | a rename while another command has cut the temporary file publishes an empty one, which reads as a store without profiles |
| ProfileStore.WriteReachesPublished | crates/edgeplane/src/daemon_ctl.rs:2132-2142 | the other's write then goes into the published file, and its rename fails |
| ProfileStore.RenamePublishesOther | crates/edgeplane/src/daemon_ctl.rs:2132-2142 | one command's rename publishes the text of another |
| ProfileStore.RenamePublishesMixture | crates/edgeplane/src/daemon_ctl.rs:2132-2142 | a shorter text written over a longer one is published and does not parse |
| ProfileStore.CommitKeepsProfileIff | crates/edgeplane/src/daemon_ctl.rs:2125-2151 | a profile saved meanwhile survives a commit that installs its own state exactly when the committing command had read it and does not take it away, or writes it itself |
| ProfileStore.OverlappingAddsLoseOne | crates/edgeplane/src/daemon_ctl.rs:2221-2253 | even when their writes do not meet, of two profiles added at once the first saved is lost |

## Left out

- Assigned tasks, domain authorization and the result artifact and finalization time columns: the protocol's steps do not depend on them.
- Effects between concurrent statements of the database: each statement is one atomic step, and the time it uses is the time it runs at.
- Create-task as one step after its checks: its read of the dependencies' statuses is represented by a flag that may be stale.
- Progress numbers beyond 32 bits.
- WatchTask.Watch: the text of a printed event, and a response without a number or that is no list.
- What a tool call computes and the context file it updates; the gateway's own `exec` and `discover` count as calls that return.
- Loss of a half-read frame when the message loop is woken by a notification: each message is read whole.
- StdioRoundTrip.WrittenHeaderReads: a Content-Length larger than an allocation may be stops the program (`crates/edgeplane/src/mcp_stdio.rs:31`); here it is an end of file in the body.
- Failure to write to standard output, and a poisoned lock of the tool cache.
- Symbolic links, I/O errors and copying onto an existing directory in the tree merge.
- TomlString.BlockIsRegion: a line feed in the command path or the base URL is excluded; it would let a value open or close a region.
- Trimming of slashes from the base URL, and numeric escapes in the reader of basic strings, which the writer never uses.
- Upper-casing of non-ASCII event kinds in the dashboard, and rows beyond the first when a poll lists an agent twice.
- An import that fails half way, and what deleting an agent does to rows of other tables by foreign key.
- Instance directories whose removal fails half way, and entries whose listing fails.
- LegacyHeal.HealIsSafe: other programs changing the same paths meanwhile, and bucket directories set to coincide.
- ProfileStore.CommitInstallsIff: the write of a text is one step, and a text over the start of a longer one is taken not to parse, as with JSON; file permissions are left out.
- Fields of the state file beyond the active profile and the profiles; the OIDC login and node registration of `profile add`.
- ControlPipe.PayloadsConcatenateIff: says which lines are requests; the JSON reader that turns one into a request is a parameter.
- Sorting of the agent pane listing, and the event pipe.
- PanePlugin.JoinedPayloads: the terminal may show anything from line to line; what an injected text makes it show is not modelled.
- HTTP, WebSocket and process plumbing, cryptography, terminal rendering and command line parsing.
