/** What each request does to its task, in columns: who is let through, what the row becomes,
    and how long a lease lasts. */
module TaskEffects {
  import opened Options
  import opened DependencyGraph
  import opened TaskLeases
  import opened TaskLifecycle

  // ---------- How long a lease lasts ----------

  function Bearer(agent: AgentId): Actor {
    Actor(agent, agent, false, false)
  }

  /** A heartbeat that presents `lease` after a pause is let through. */
  predicate BeatsAfter(s: Tower, t: TaskId, agent: AgentId, lease: Lease, pause: nat) {
    Apply(Apply(s, Tick(pause)), Heartbeat(Bearer(agent), t, Some(lease))).log != s.log
  }

  /** The bearer of the lease is let through for `secs` seconds and not a second longer. */
  ghost predicate LastsFor(s: Tower, t: TaskId, lease: Lease, secs: int) {
    forall agent, pause: nat :: BeatsAfter(s, t, agent, lease, pause) <==> pause <= secs
  }

  /** A claim over REST is good for two minutes. */
  lemma RestClaimLasts(s: Tower, r: RequestId, t: TaskId, agent: AgentId, policy: Policy, lease: Lease)
    requires r in s.inflight && s.inflight[r] == ClaimRead(t, agent, policy) && !policy.Broadcast?
    requires t in s.tasks && s.tasks[t].status.Ready? && lease !in s.issued && !s.tasks[t].policy.Broadcast?
    ensures LastsFor(Apply(s, ClaimWrite(r, lease)), t, lease, 120)
  {
  }

  /** An MCP claim is good for the seconds asked for, cut to between a minute and an hour. */
  lemma McpClaimLasts(s: Tower, t: TaskId, agent: AgentId, lease: Lease, seconds: int)
    requires t in s.tasks && s.tasks[t].status.Ready? && lease !in s.issued && !s.tasks[t].policy.Broadcast?
    ensures LastsFor(Apply(s, McpClaim(t, agent, lease, seconds)), t, lease,
                     if seconds < 60 then 60 else if seconds > 3600 then 3600 else seconds)
  {
  }

  /** A heartbeat that is let through makes it two minutes from now, whatever was left. */
  lemma HeartbeatRenews(s: Tower, a: Actor, t: TaskId, lease: Lease)
    requires t in s.tasks && s.tasks[t].lease == Some(lease) && !s.tasks[t].policy.Broadcast?
    requires Apply(s, Heartbeat(a, t, Some(lease))).log != s.log
    ensures var s' := Apply(s, Heartbeat(a, t, Some(lease)));
            && LastsFor(s', t, lease, 120) && s'.tasks[t].status.Running?
            && s'.tasks[t].claimer == s.tasks[t].claimer && s'.tasks[t].lease == Some(lease)
  {
  }

  /** The lease of a broadcast task at work does not run out. */
  lemma BroadcastNeverLapses(s: Tower, t: TaskId, agent: AgentId, lease: Lease, pause: nat)
    requires t in s.tasks && s.tasks[t].policy.Broadcast? && s.tasks[t].status in {Claimed, Running}
    requires s.tasks[t].lease == Some(lease)
    ensures BeatsAfter(s, t, agent, lease, pause)
  {
  }

  // ---------- Expiry ----------

  /** A sweep takes every lapsed exclusive claim of its mission off its holder: the task is ready
      again, or failed with its third lapse. Every other row stays as it is. */
  lemma SweepTakesBack(s: Tower, m: MissionId, t: TaskId)
    requires t in s.tasks
    ensures var row := s.tasks[t];
            var row' := Apply(s, Sweep(m)).tasks[t];
            if row.mission == m && row.policy.Exclusive? && row.status in {Claimed, Running}
               && row.expires.Some? && row.expires.value < s.now
            then
              && row'.claimer == None && row'.lease == None && row'.expires == None
              && row'.attempt == row.attempt + 1
              && row'.status == (if row.attempt + 1 < row.maxAttempts then Ready else Failed)
              && row'.requeues == row.requeues + (if row'.status.Ready? then 1 else 0)
            else row' == row
    ensures Apply(s, Sweep(m)).tasks.Keys == s.tasks.Keys
  {
  }

  /** A new task may lapse twice; the third lapse fails it. */
  lemma ThirdLapseFails(s: Tower, m: MissionId, t: TaskId)
    requires t in s.tasks && s.tasks[t].maxAttempts == NewTask(m, Exclusive, [], true, "").maxAttempts
    requires s.tasks[t].mission == m && s.tasks[t].policy.Exclusive? && s.tasks[t].status in {Claimed, Running}
    requires s.tasks[t].expires.Some? && s.tasks[t].expires.value < s.now
    ensures Apply(s, Sweep(m)).tasks[t].status == if s.tasks[t].attempt < 2 then Ready else Failed
  {
  }

  // ---------- Claims ----------

  /** The first statement of a claim over REST reads a ready task, and refuses any other. */
  lemma RestClaimReads(s: Tower, r: RequestId, t: TaskId, agent: AgentId)
    requires r !in s.inflight && t in s.tasks
    ensures Apply(s, ClaimFetch(r, t, agent))
            == if s.tasks[t].status.Ready? then s.(inflight := s.inflight[r := ClaimRead(t, agent, s.tasks[t].policy)])
               else s
  {
  }

  /** A claim over REST: the second statement wins for the agent that read the task, unless the
      task is exclusive and no longer ready. */
  lemma RestClaimTakesEffect(s: Tower, r: RequestId, t: TaskId, agent: AgentId, policy: Policy, lease: Lease)
    requires r in s.inflight && s.inflight[r] == ClaimRead(t, agent, policy) && t in s.tasks && lease !in s.issued
    ensures var s' := Apply(s, ClaimWrite(r, lease));
            if policy.Broadcast? || s.tasks[t].status.Ready? then
              && s'.tasks[t].status == (if policy.Broadcast? then Running else Claimed)
              && s'.tasks[t].claimer == Some(agent) && s'.tasks[t].lease == Some(lease)
              && s'.tasks[t].attempt == s.tasks[t].attempt
              && s'.tasks[t].version == s.tasks[t].version + (if policy.Broadcast? then 0 else 1)
            else s'.tasks == s.tasks
    ensures r !in Apply(s, ClaimWrite(r, lease)).inflight
  {
  }

  lemma McpClaimTakesEffect(s: Tower, t: TaskId, agent: AgentId, lease: Lease, seconds: int)
    requires t in s.tasks && lease !in s.issued
    ensures var s' := Apply(s, McpClaim(t, agent, lease, seconds));
            if s.tasks[t].status.Ready? then
              && s'.tasks[t].status.Claimed? && s'.tasks[t].claimer == Some(agent) && s'.tasks[t].lease == Some(lease)
              && s'.tasks[t].version == s.tasks[t].version + 1
            else s' == s
  {
  }

  // ---------- Completion and failure ----------

  /** Who may end the work on a task: its claimer at any time, or whoever presents its lease, or
      bypasses the check, while the claim is fresh. */
  predicate MayFinal(row: Task, identity: AgentId, lease: Option<Lease>, bypass: bool, now: int) {
    && row.status in {Claimed, Running, WaitingReview}
    && (|| row.claimer == Some(identity)
        || ((bypass || (row.lease.Some? && row.lease == lease))
            && (row.policy.Broadcast? || (row.expires.Some? && row.expires.value >= now))))
  }

  /** Only a bypass lets a request speak for another agent. */
  lemma OnBehalfNeedsBypass(a: Actor, onBehalf: Option<AgentId>)
    ensures Effective(a, onBehalf) == if a.bypass && onBehalf.Some? then onBehalf.value else a.subjectId
  {
  }

  lemma FenceIsMayFinal(row: Task, identity: AgentId, lease: Option<Lease>, bypass: bool, now: int)
    ensures FenceFinal(row, identity, lease, bypass, now) <==> MayFinal(row, identity, lease, bypass, now)
  {
  }

  /** A completion waits for review, the claim kept, while a gate is pending; otherwise it
      finishes the task, credits the claimer, and starts the scan for dependents. */
  lemma CompletionTakesEffect(s: Tower, r: RequestId, a: Actor, t: TaskId, lease: Option<Lease>,
                              onBehalf: Option<AgentId>)
    requires r !in s.inflight && t in s.tasks
    ensures var row := s.tasks[t];
            var identity := Effective(a, onBehalf);
            var s' := Apply(s, Complete(r, a, t, lease, onBehalf));
            if !MayFinal(row, identity, lease, a.bypass, s.now) then s' == s
            else if exists g :: g in s.gates && s.gates[g].task == t && s.gates[g].status == GatePending then
              s'.tasks[t] == row.(status := WaitingReview) && s'.inflight == s.inflight
            else
              && s'.tasks[t].status.Finished? && s'.tasks[t].claimer == None && s'.tasks[t].lease == None
              && s'.tasks[t].expires == None
              && s'.tasks[t].finalizedBy == Some(if row.claimer.Some? then row.claimer.value else identity)
              && s'.inflight == s.inflight[r := UnblockStart(row.mission, t)]
  {
    FenceIsMayFinal(s.tasks[t], Effective(a, onBehalf), lease, a.bypass, s.now);
    hide FenceFinal, MayFinal, Effective;
  }

  /** A failure ends the task as failed, credits the claimer, and starts no scan. */
  lemma FailureTakesEffect(s: Tower, a: Actor, t: TaskId, lease: Option<Lease>, onBehalf: Option<AgentId>)
    requires t in s.tasks
    ensures var row := s.tasks[t];
            var identity := Effective(a, onBehalf);
            var s' := Apply(s, Fail(a, t, lease, onBehalf));
            if !MayFinal(row, identity, lease, a.bypass, s.now) then s' == s
            else
              && s'.tasks[t].status.Failed? && s'.tasks[t].claimer == None && s'.tasks[t].lease == None
              && s'.tasks[t].expires == None && s'.inflight == s.inflight
              && s'.tasks[t].finalizedBy == Some(if row.claimer.Some? then row.claimer.value else identity)
  {
  }

  // ---------- Progress ----------

  /** A live claim's progress is recorded under its agent, word for word, behind what is there;
      the row is not touched. */
  lemma ProgressTakesEffect(s: Tower, a: Actor, t: TaskId, lease: Lease, summary: string)
    requires t in s.tasks
    ensures var row := s.tasks[t];
            var s' := Apply(s, AppendProgress(a, t, lease, summary));
            var before, after := EventsOf(s, t), EventsOf(s', t);
            if row.status in {Claimed, Running} && (a.bypass || row.lease == Some(lease))
               && (row.policy.Broadcast? || (row.expires.Some? && row.expires.value >= s.now))
            then
              && |after| == |before| + 1 && after[..|before|] == before && s'.tasks == s.tasks
              && after[|before|].agent == a.subjectId && after[|before|].summary == summary
            else s' == s
  {
  }

  // ---------- Blocking, cancelling, retrying ----------

  /** Blocking takes the lease and keeps the claimer, who alone may unblock. */
  lemma BlockTakesEffect(s: Tower, a: Actor, t: TaskId, lease: Option<Lease>)
    requires t in s.tasks
    ensures var row := s.tasks[t];
            var s' := Apply(s, Block(a, t, lease));
            if row.status in {Claimed, Running}
               && (a.bypass || row.claimer == Some(a.subjectId) || (row.lease.Some? && row.lease == lease))
            then
              && s'.tasks[t].status.Blocked? && s'.tasks[t].lease == None && s'.tasks[t].expires == None
              && s'.tasks[t].claimer == row.claimer
            else s' == s
  {
  }

  lemma UnblockTakesEffect(s: Tower, a: Actor, t: TaskId)
    requires t in s.tasks
    ensures var row := s.tasks[t];
            var s' := Apply(s, Unblock(a, t));
            if row.status.Blocked? && (a.bypass || row.claimer == Some(a.subjectId))
            then s'.tasks[t] == row.(status := Ready) else s' == s
  {
  }

  /** A cancellation credits who cancelled, unless somebody is credited already. */
  lemma CancelTakesEffect(s: Tower, a: Actor, t: TaskId)
    requires t in s.tasks
    ensures var row := s.tasks[t];
            var s' := Apply(s, Cancel(a, t));
            if row.status != Finished && row.status != Cancelled && (a.bypass || row.claimer == Some(a.subjectId)) then
              && s'.tasks[t].status.Cancelled? && s'.tasks[t].claimer == None && s'.tasks[t].lease == None
              && s'.tasks[t].expires == None
              && s'.tasks[t].finalizedBy == (if row.finalizedBy.Some? then row.finalizedBy else Some(a.subjectId))
            else s' == s
  {
  }

  /** A retry makes a failed or cancelled task ready, with nobody credited. */
  lemma RetryTakesEffect(s: Tower, t: TaskId)
    requires t in s.tasks
    ensures var row' := Apply(s, Retry(t)).tasks[t];
            if s.tasks[t].status == Failed || s.tasks[t].status == Cancelled then
              && row'.status.Ready? && row'.claimer == None && row'.lease == None && row'.expires == None
              && row'.finalizedBy == None && row'.attempt == s.tasks[t].attempt
            else row' == s.tasks[t]
  {
  }

  // ---------- Creation and dispatch ----------

  lemma InsertTakesEffect(s: Tower, t: TaskId, m: MissionId, p: Policy, deps: seq<TaskId>, ready: bool, creator: string)
    ensures var s' := Apply(s, Insert(t, m, p, deps, ready, creator));
            if t !in s.tasks && forall d :: d in deps ==> d in s.tasks && s.tasks[d].mission == m then
              && t in s'.tasks
              && var row := s'.tasks[t];
                 && row.status == (if ready || deps == [] then Ready else Pending) && row.policy == p
                 && row.mission == m && row.dependsOn == deps && row.createdBy == creator
                 && row.claimer == None && row.lease == None && row.expires == None && row.finalizedBy == None
                 && row.attempt == 0 && row.version == 0 && s'.tasks == s.tasks[t := row]
            else s' == s
  {
  }

  /** Only the creator or an administrator dispatches, and only what is ready. */
  lemma DispatchTakesEffect(s: Tower, r: RequestId, a: Actor, t: TaskId)
    requires r !in s.inflight && t in s.tasks
    ensures var s1 := Apply(s, DispatchFetch(r, a, t));
            if s.tasks[t].status.Ready? && (a.admin || s.tasks[t].createdBy == a.subject) then
              && s1.tasks == s.tasks
              && Apply(s1, DispatchWrite(r)).tasks == s.tasks[t := s.tasks[t].(status := Finished)]
              && Apply(s1, DispatchWrite(r)).inflight == s.inflight
            else s1 == s
  {
    var s1 := Apply(s, DispatchFetch(r, a, t));
    if s1 != s {
      assert s1.inflight - {r} == s.inflight;
    }
  }

  // ---------- The scan for dependents ----------

  /** A scan looks at exactly the pending and blocked tasks of the mission that list the finished
      one among their dependencies. */
  lemma ScanSelects(s: Tower, r: RequestId, m: MissionId, done: TaskId)
    requires r in s.inflight && s.inflight[r] == UnblockStart(m, done)
    ensures var s' := Apply(s, UnblockSelect(r));
            && s'.tasks == s.tasks && r in s'.inflight && s'.inflight[r].UnblockScan?
            && forall t :: t in s'.inflight[r].todo
                 <==> && t in s.tasks && s.tasks[t].mission == m && done in s.tasks[t].dependsOn
                      && (s.tasks[t].status == Pending || s.tasks[t].status == Blocked)
  {
  }

  /** It goes on to write a candidate exactly when each dependency is finished and none is listed
      twice. */
  lemma ScanArms(s: Tower, r: RequestId, t: TaskId)
    requires r in s.inflight && s.inflight[r].UnblockScan? && t in s.inflight[r].todo && t in s.tasks
    requires forall d :: d in s.tasks[t].dependsOn ==> d in s.tasks
    ensures var armed := NoDuplicates(s.tasks[t].dependsOn)
                         && forall d :: d in s.tasks[t].dependsOn ==> s.tasks[d].status == Finished;
            var rest := s.inflight[r].todo - {t};
            Apply(s, UnblockCheck(r, t))
            == s.(inflight := s.inflight[r := if armed then UnblockArmed(t, rest) else UnblockScan(rest)])
  {
    DepsFinishedIffDistinct(s.tasks, s.tasks[t].dependsOn);
    hide DepsFinished, NoDuplicates;
  }

  /** The write makes the candidate ready, whatever it is by then. */
  lemma ScanWrites(s: Tower, r: RequestId, t: TaskId, rest: set<TaskId>)
    requires r in s.inflight && s.inflight[r] == UnblockArmed(t, rest) && t in s.tasks
    ensures Apply(s, UnblockWrite(r))
            == s.(tasks := s.tasks[t := s.tasks[t].(status := Ready)], inflight := s.inflight[r := UnblockScan(rest)])
  {
  }

  // ---------- Which row a request touches ----------

  /** The task a statement is about; a sweep is about a whole mission. */
  function SubjectOf(s: Tower, step: Step): Option<TaskId> {
    match step
    case Insert(t, _, _, _, _, _) => Some(t)
    case ClaimWrite(r, _) => if r in s.inflight && s.inflight[r].ClaimRead? then Some(s.inflight[r].task) else None
    case McpClaim(t, _, _, _) => Some(t)
    case Heartbeat(_, t, _) => Some(t)
    case Complete(_, _, t, _, _) => Some(t)
    case Fail(_, t, _, _) => Some(t)
    case Block(_, t, _) => Some(t)
    case Unblock(_, t) => Some(t)
    case Cancel(_, t) => Some(t)
    case Retry(t) => Some(t)
    case ResolveGate(_, _, _, t, _) => Some(t)
    case DispatchWrite(r) => if r in s.inflight && s.inflight[r].DispatchRead? then Some(s.inflight[r].task) else None
    case UnblockWrite(r) => if r in s.inflight && s.inflight[r].UnblockArmed? then Some(s.inflight[r].task) else None
    case _ => None
  }

  /** No statement but a sweep writes a row it is not about. */
  lemma OtherRowsStay(s: Tower, step: Step, t: TaskId)
    requires !step.Sweep? && SubjectOf(s, step) != Some(t)
    ensures t in Apply(s, step).tasks <==> t in s.tasks
    ensures t in s.tasks ==> Apply(s, step).tasks[t] == s.tasks[t]
  {
    hide Apply;
    if IsClaimerStep(step) {
      ClaimersLeaveOthers(s, step, t);
    } else {
      OthersLeaveOthers(s, step, t);
    }
  }

  lemma ClaimersLeaveOthers(s: Tower, step: Step, t: TaskId)
    requires IsClaimerStep(step) && SubjectOf(s, step) != Some(t)
    ensures t in Apply(s, step).tasks <==> t in s.tasks
    ensures t in s.tasks ==> Apply(s, step).tasks[t] == s.tasks[t]
  {
    if step.Complete? || step.Fail? {
      hide Apply;
      EndingsLeaveOthers(s, step, t);
    } else {
      hide HasPendingGate, FenceLive, FenceFinal, NextSeq, SqlEq, Clear, EventsOf, Effective;
    }
  }

  lemma EndingsLeaveOthers(s: Tower, step: Step, t: TaskId)
    requires (step.Complete? || step.Fail?) && step.task != t
    ensures t in Apply(s, step).tasks <==> t in s.tasks
    ensures t in s.tasks ==> Apply(s, step).tasks[t] == s.tasks[t]
  {
    hide HasPendingGate, FenceFinal, Clear, Effective;
  }

  lemma OthersLeaveOthers(s: Tower, step: Step, t: TaskId)
    requires !IsClaimerStep(step) && !step.Sweep? && SubjectOf(s, step) != Some(t)
    ensures t in Apply(s, step).tasks <==> t in s.tasks
    ensures t in s.tasks ==> Apply(s, step).tasks[t] == s.tasks[t]
  {
    hide DepsFinished, AnyRejected, AllResolved, Waits, SqlEq, Clamp, Accepts, NewTask;
  }
}
