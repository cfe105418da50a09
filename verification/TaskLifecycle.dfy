/** What happens to a task's status over a run: who may end a claim, how often a task is
    claimed and requeued, when it may finish, and when being finished is final. */
module TaskLifecycle {
  import opened Options
  import opened DependencyGraph
  import opened TaskLeases

  // ---------- What one step can change ----------

  /** The columns no statement updates, and the retry counters. */
  ghost predicate RowFollows(row: Task, row': Task) {
    && row'.mission == row.mission && row'.policy == row.policy
    && row'.dependsOn == row.dependsOn && row'.maxAttempts == row.maxAttempts
    && (|| (row'.attempt == row.attempt && row'.requeues == row.requeues)
        || (row'.attempt == row.attempt + 1 && row'.requeues == row.requeues)
        || (row'.attempt == row.attempt + 1 && row'.requeues == row.requeues + 1 && row'.attempt < row.maxAttempts))
  }

  ghost predicate RowsFollow(s: Tower, tasks': map<TaskId, Task>) {
    && s.tasks.Keys <= tasks'.Keys
    && forall t :: t in tasks' ==>
         if t in s.tasks then RowFollows(s.tasks[t], tasks'[t])
         else tasks'[t].attempt == tasks'[t].requeues == 0 && tasks'[t].maxAttempts == MAX_ATTEMPTS
              && forall d :: d in tasks'[t].dependsOn ==> d in s.tasks && s.tasks[d].mission == tasks'[t].mission
  }

  lemma StepRows(s: Tower, step: Step)
    ensures RowsFollow(s, Apply(s, step).tasks)
  {
    if step.Sweep? || step.Insert? {
    } else {
      hide Apply;
      forall t
        ensures t in Apply(s, step).tasks <==> t in s.tasks
        ensures t in s.tasks ==> RowFollows(s.tasks[t], Apply(s, step).tasks[t])
      {
        PlainRow(s, step, t);
      }
    }
  }

  /** Same columns, same counters. */
  ghost predicate KeepsRow(s: Tower, s': Tower, t: TaskId) {
    && (t in s'.tasks <==> t in s.tasks)
    && (t in s.tasks ==>
          var row, row' := s.tasks[t], s'.tasks[t];
          && row'.mission == row.mission && row'.policy == row.policy
          && row'.dependsOn == row.dependsOn && row'.maxAttempts == row.maxAttempts
          && row'.attempt == row.attempt && row'.requeues == row.requeues)
  }

  /** The requests of a claimer about its claim. */
  predicate IsClaimerStep(step: Step) {
    || step.Heartbeat? || step.AppendProgress? || step.Complete? || step.Fail?
    || step.Block? || step.Unblock? || step.Cancel?
  }

  /** The step is no request of a claimer about `t`. */
  predicate Spares(step: Step, t: TaskId) {
    match step
    case Heartbeat(_, u, _) => u != t
    case AppendProgress(_, u, _, _) => u != t
    case Complete(_, _, u, _, _) => u != t
    case Fail(_, u, _, _) => u != t
    case Block(_, u, _) => u != t
    case Unblock(_, u) => u != t
    case Cancel(_, u) => u != t
    case _ => true
  }

  ghost predicate AllSpare(steps: seq<Step>, t: TaskId) {
    forall i :: 0 <= i < |steps| ==> Spares(steps[i], t)
  }

  lemma ClaimerKeepsRow(s: Tower, step: Step, t: TaskId)
    requires IsClaimerStep(step)
    ensures KeepsRow(s, Apply(s, step), t)
  {
    hide HasPendingGate, FenceLive, FenceFinal, NextSeq, SqlEq;
  }

  lemma OtherKeepsRow(s: Tower, step: Step, t: TaskId)
    requires !step.Insert? && !step.Sweep? && !IsClaimerStep(step)
    ensures KeepsRow(s, Apply(s, step), t)
  {
    hide DepsFinished, AnyRejected, AllResolved, Waits, SqlEq, Clamp;
  }

  /** Only an insert adds rows, and only a sweep touches the retry counters. */
  lemma PlainRow(s: Tower, step: Step, t: TaskId)
    requires !step.Insert? && !step.Sweep?
    ensures KeepsRow(s, Apply(s, step), t)
  {
    hide Apply, KeepsRow;
    if IsClaimerStep(step) {
      ClaimerKeepsRow(s, step, t);
    } else {
      OtherKeepsRow(s, step, t);
    }
  }

  /** How a request in flight came to hold what it holds. */
  ghost predicate Follows(s: Tower, before: Option<Inflight>, after: Inflight) {
    before == Some(after) ||
    match after
    case ClaimRead(t, _, policy) => t in s.tasks && s.tasks[t].status.Ready? && policy == s.tasks[t].policy
    case UnblockScan(todo) =>
      before.Some? &&
      (match before.value
       case UnblockStart(_, _) => forall c :: c in todo ==> c in s.tasks && s.tasks[c].status in {Pending, Blocked}
       case UnblockScan(old_) => exists c :: c in old_ && todo == old_ - {c} && c in s.tasks
                                          && !DepsFinished(s.tasks, s.tasks[c].dependsOn)
       case UnblockArmed(_, old_) => todo == old_
       case _ => false)
    case UnblockArmed(u, todo) =>
      before.Some? && before.value.UnblockScan? && u in before.value.todo && todo == before.value.todo - {u}
      && u in s.tasks && DepsFinished(s.tasks, s.tasks[u].dependsOn)
    case DispatchRead(u) => u in s.tasks && s.tasks[u].status.Ready?
    case UnblockStart(_, _) => true
  }

  function InflightOf(s: Tower, r: RequestId): Option<Inflight> {
    if r in s.inflight then Some(s.inflight[r]) else None
  }

  lemma StepInflight(s: Tower, step: Step)
    ensures var s' := Apply(s, step);
            forall r :: r in s'.inflight ==> Follows(s, InflightOf(s, r), s'.inflight[r])
  {
    hide Apply, Follows;
    forall r | r in Apply(s, step).inflight
      ensures Follows(s, InflightOf(s, r), Apply(s, step).inflight[r])
    {
      if IsClaimerStep(step) {
        ClaimerInflight(s, step, r);
      } else if step.UnblockSelect? || step.UnblockCheck? || step.UnblockWrite? {
        ScanInflight(s, step, r);
      } else {
        OtherInflight(s, step, r);
      }
    }
  }

  lemma ClaimerInflight(s: Tower, step: Step, r: RequestId)
    requires IsClaimerStep(step) && r in Apply(s, step).inflight
    ensures Follows(s, InflightOf(s, r), Apply(s, step).inflight[r])
  {
    hide HasPendingGate, FenceLive, FenceFinal, NextSeq, SqlEq;
  }

  lemma ScanInflight(s: Tower, step: Step, r: RequestId)
    requires step.UnblockSelect? || step.UnblockCheck? || step.UnblockWrite?
    requires r in Apply(s, step).inflight
    ensures Follows(s, InflightOf(s, r), Apply(s, step).inflight[r])
  {
    hide DepsFinished;
  }

  lemma OtherInflight(s: Tower, step: Step, r: RequestId)
    requires !IsClaimerStep(step) && !(step.UnblockSelect? || step.UnblockCheck? || step.UnblockWrite?)
    requires r in Apply(s, step).inflight
    ensures Follows(s, InflightOf(s, r), Apply(s, step).inflight[r])
  {
    hide AnyRejected, AllResolved, Sweepable, SqlEq, DepsFinished, Expire, Clamp;
  }

  // ---------- A live claim is not stolen ----------

  /** A claim in flight remembers the policy its task still has. */
  ghost predicate PoliciesAgree(s: Tower) {
    forall r :: r in s.inflight && s.inflight[r].ClaimRead? ==>
      s.inflight[r].task in s.tasks && s.tasks[s.inflight[r].task].policy == s.inflight[r].policy
  }

  lemma PoliciesAgreeStep(s: Tower, step: Step)
    requires PoliciesAgree(s)
    ensures PoliciesAgree(Apply(s, step))
  {
    hide Apply, DepsFinished;
    StepRows(s, step);
    StepInflight(s, step);
  }

  ghost predicate Entitled(row: Task, identity: AgentId, presented: Option<Lease>, bypass: bool) {
    bypass || row.claimer == Some(identity) || (row.lease.Some? && row.lease == presented)
  }

  /** Still at work, for the same agent under the same lease. */
  predicate SameClaim(row: Task, row': Task) {
    row'.status in {Claimed, Running} && row'.lease == row.lease && row'.claimer == row.claimer
  }

  /** A live claim that has not run out is ended only by its claimer, the bearer of its lease
      or a bypass caller, or by a dispatch or a dependents' scan that read the task earlier;
      these two leave the lease on the row. No other claim, sweep or gate touches it. */
  lemma LiveClaimNotStolen(s: Tower, step: Step, t: TaskId)
    requires PoliciesAgree(s) && t in s.tasks
    requires var row := s.tasks[t];
             && !row.policy.Broadcast? && row.status in {Claimed, Running}
             && row.lease.Some? && row.expires.Some? && row.expires.value >= s.now
    requires t in Apply(s, step).tasks ==> !SameClaim(s.tasks[t], Apply(s, step).tasks[t])
    ensures match step
            case Complete(_, a, u, lease, onBehalf) =>
              u == t && Entitled(s.tasks[t], Effective(a, onBehalf), lease, a.bypass)
            case Fail(a, u, lease, onBehalf) => u == t && Entitled(s.tasks[t], Effective(a, onBehalf), lease, a.bypass)
            case Block(a, u, lease) => u == t && Entitled(s.tasks[t], a.subjectId, lease, a.bypass)
            case Cancel(a, u) => u == t && Entitled(s.tasks[t], a.subjectId, None, a.bypass)
            case DispatchWrite(r) => r in s.inflight && s.inflight[r] == DispatchRead(t)
            case UnblockWrite(r) => r in s.inflight && s.inflight[r].UnblockArmed? && s.inflight[r].task == t
            case _ => false
    ensures step.DispatchWrite? || step.UnblockWrite? ==> Apply(s, step).tasks[t].lease == s.tasks[t].lease
  {
    if step.Complete? || step.Fail? || step.Block? || step.Cancel? {
      ClaimerStepsEndClaim(s, step, t);
    } else if !step.DispatchWrite? && !step.UnblockWrite? {
      hide Apply;
      OtherStepsSpareClaim(s, step, t);
    }
  }

  lemma ClaimerStepsEndClaim(s: Tower, step: Step, t: TaskId)
    requires step.Complete? || step.Fail? || step.Block? || step.Cancel?
    requires t in s.tasks && s.tasks[t].status in {Claimed, Running}
    requires t in Apply(s, step).tasks ==> !SameClaim(s.tasks[t], Apply(s, step).tasks[t])
    ensures match step
            case Complete(_, a, u, lease, onBehalf) =>
              u == t && Entitled(s.tasks[t], Effective(a, onBehalf), lease, a.bypass)
            case Fail(a, u, lease, onBehalf) => u == t && Entitled(s.tasks[t], Effective(a, onBehalf), lease, a.bypass)
            case Block(a, u, lease) => u == t && Entitled(s.tasks[t], a.subjectId, lease, a.bypass)
            case Cancel(a, u) => u == t && Entitled(s.tasks[t], a.subjectId, None, a.bypass)
            case _ => false
  {
    hide HasPendingGate, Fresh;
  }

  lemma OtherStepsSpareClaim(s: Tower, step: Step, t: TaskId)
    requires PoliciesAgree(s) && t in s.tasks
    requires var row := s.tasks[t];
             && !row.policy.Broadcast? && row.status in {Claimed, Running}
             && row.lease.Some? && row.expires.Some? && row.expires.value >= s.now
    requires !(step.Complete? || step.Fail? || step.Block? || step.Cancel?)
    requires !(step.DispatchWrite? || step.UnblockWrite?)
    ensures t in Apply(s, step).tasks && SameClaim(s.tasks[t], Apply(s, step).tasks[t])
  {
    hide DepsFinished, AnyRejected, AllResolved, HasPendingGate, Waits, NextSeq, FenceLive, FenceFinal, Clamp, SqlEq;
    if !step.ClaimWrite? {
      hide PoliciesAgree;
    }
  }

  lemma {:induction false} PoliciesAgreeInRuns(s: Tower, steps: seq<Step>)
    requires PoliciesAgree(s)
    ensures PoliciesAgree(Run(s, steps))
    decreases |steps|
  {
    hide Apply, PoliciesAgree;
    if steps != [] {
      PoliciesAgreeStep(s, steps[0]);
      PoliciesAgreeInRuns(Apply(s, steps[0]), steps[1..]);
    }
  }

  // ---------- Claims won against readiness ----------

  function ExclusiveClaims(log: seq<LogEntry>, t: TaskId): nat
    decreases |log|
  {
    if log == [] then 0
    else
      var e := log[|log| - 1];
      ExclusiveClaims(log[..|log| - 1], t) + if e.Issued? && e.exclusive && e.task == t then 1 else 0
  }

  predicate IsReady(s: Tower, t: TaskId) {
    t in s.tasks && s.tasks[t].status.Ready?
  }

  /** How many steps of the run make `t` ready when it was not. */
  function BecameReady(s: Tower, steps: seq<Step>, t: TaskId): nat
    decreases |steps|
  {
    if steps == [] then 0
    else
      var s' := Apply(s, steps[0]);
      (if !IsReady(s, t) && IsReady(s', t) then 1 else 0) + BecameReady(s', steps[1..], t)
  }

  lemma ReadinessStep(s: Tower, step: Step, t: TaskId)
    ensures var s' := Apply(s, step);
            ExclusiveClaims(s'.log, t) + (if IsReady(s', t) then 1 else 0)
              <= ExclusiveClaims(s.log, t) + (if IsReady(s, t) || IsReady(s', t) then 1 else 0)
  {
    hide ExclusiveClaims, DepsFinished, AnyRejected, AllResolved, HasPendingGate, FenceLive, FenceFinal, Sweepable,
        Waits, NextSeq;
    LogGrowth(s, step);
    var s' := Apply(s, step);
    if s'.log != s.log {
      LastEntryCounts(s.log, s'.log[|s.log|], t);
    }
  }

  lemma LastEntryCounts(log: seq<LogEntry>, e: LogEntry, t: TaskId)
    ensures ExclusiveClaims(log + [e], t)
            == ExclusiveClaims(log, t) + if e.Issued? && e.exclusive && e.task == t then 1 else 0
  {
    assert (log + [e])[..|log|] == log;
  }

  /** A step logs at most one entry, and an exclusive claim only out of 'ready'. */
  lemma LogGrowth(s: Tower, step: Step)
    ensures var s' := Apply(s, step);
            s'.log == s.log
            || (|s'.log| == |s.log| + 1 && s'.log == s.log + [s'.log[|s.log|]]
                && var e := s'.log[|s.log|];
                   e.Issued? && e.exclusive ==> IsReady(s, e.task) && !IsReady(s', e.task))
  {
    hide DepsFinished, AnyRejected, AllResolved, HasPendingGate, FenceLive, FenceFinal, Sweepable, Waits, NextSeq;
  }

  /** However many claimers race, each time the task becomes ready at most one exclusive
      claim of it succeeds. */
  lemma {:induction false} OneClaimPerReadiness(s: Tower, steps: seq<Step>, t: TaskId)
    ensures ExclusiveClaims(Run(s, steps).log, t)
            <= ExclusiveClaims(s.log, t) + (if IsReady(s, t) then 1 else 0) + BecameReady(s, steps, t)
    decreases |steps|
  {
    hide Apply, IsReady, ExclusiveClaims;
    if steps != [] {
      ReadinessStep(s, steps[0], t);
      OneClaimPerReadiness(Apply(s, steps[0]), steps[1..], t);
    }
  }

  // ---------- Bounded requeueing ----------

  ghost predicate RequeuesBounded(row: Task) {
    row.maxAttempts == MAX_ATTEMPTS && row.requeues <= row.attempt && row.requeues < MAX_ATTEMPTS
  }

  lemma RequeuesStep(s: Tower, step: Step)
    requires forall t :: t in s.tasks ==> RequeuesBounded(s.tasks[t])
    ensures forall t :: t in Apply(s, step).tasks ==> RequeuesBounded(Apply(s, step).tasks[t])
  {
    hide Apply;
    StepRows(s, step);
  }

  /** In any run, expired leases put a task back at most MAX_ATTEMPTS - 1 times in its
      whole life, operator retries included. */
  lemma {:induction false} BoundedRequeues(s: Tower, steps: seq<Step>)
    requires forall t :: t in s.tasks ==> RequeuesBounded(s.tasks[t])
    ensures forall t :: t in Run(s, steps).tasks ==> Run(s, steps).tasks[t].requeues <= MAX_ATTEMPTS - 1
    decreases |steps|
  {
    hide Apply;
    if steps != [] {
      RequeuesStep(s, steps[0]);
      BoundedRequeues(Apply(s, steps[0]), steps[1..]);
    }
  }

  // ---------- Review gates ----------

  /** Apart from a dispatch, no step finishes a task that has a pending gate, and a gate
      resolution finishes it only with every gate approved or expired. */
  lemma FinishRespectsGates(s: Tower, step: Step, t: TaskId)
    requires t in s.tasks && !s.tasks[t].status.Finished?
    requires t in Apply(s, step).tasks && Apply(s, step).tasks[t].status.Finished?
    ensures step.DispatchWrite? || step.Complete? || step.ResolveGate?
    ensures !step.DispatchWrite? ==> !HasPendingGate(Apply(s, step), t)
    ensures step.ResolveGate? ==> AllResolved(Apply(s, step).gates, t)
  {
    if !(step.DispatchWrite? || step.Complete? || step.ResolveGate?) {
      hide Apply;
      OthersDoNotFinish(s, step, t);
    }
  }

  lemma OthersDoNotFinish(s: Tower, step: Step, t: TaskId)
    requires t in s.tasks && !s.tasks[t].status.Finished?
    requires !(step.DispatchWrite? || step.Complete? || step.ResolveGate?)
    ensures t in Apply(s, step).tasks && !Apply(s, step).tasks[t].status.Finished?
  {
    hide DepsFinished, FenceLive, FenceFinal, Sweepable, Waits, NextSeq, SqlEq, Clamp;
  }

  /** Approving the last pending gate finishes the task exactly when no gate was ever
      rejected: a rejection from before a retry still fails the task. */
  lemma ApprovingLastGate(s: Tower, r: RequestId, a: Actor, g: GateId, t: TaskId)
    requires t in s.tasks && s.tasks[t].status.WaitingReview? && r !in s.inflight
    requires g in s.gates && s.gates[g] == Gate(t, s.gates[g].owner, GatePending)
    requires s.gates[g].owner == a.subject || a.admin
    requires forall h :: h in s.gates && h != g && s.gates[h].task == t ==> !s.gates[h].status.GatePending?
    ensures Apply(s, ResolveGate(r, a, g, t, true)).tasks[t].status
            == if AnyRejected(s.gates, t) then Failed else Finished
  {
    var gates := s.gates[g := s.gates[g].(status := Approved)];
    if AnyRejected(s.gates, t) {
      var h :| h in s.gates && s.gates[h].task == t && s.gates[h].status.Rejected?;
      assert h in gates && gates[h].task == t && gates[h].status.Rejected?;
    } else {
      assert g in gates && gates[g].task == t;
    }
  }

  // ---------- When being finished is final ----------

  /** Dependencies are checked to exist when a task is created, and rows are never deleted. */
  ghost predicate DepsExist(s: Tower) {
    forall t, d :: t in s.tasks && d in s.tasks[t].dependsOn ==> d in s.tasks
  }

  lemma DepsExistStep(s: Tower, step: Step)
    requires DepsExist(s)
    ensures DepsExist(Apply(s, step))
  {
    hide Apply;
    StepRows(s, step);
  }

  ghost predicate NoDuplicates(deps: seq<TaskId>) {
    forall i, j :: 0 <= i < j < |deps| ==> deps[i] != deps[j]
  }

  /** A request in flight still holds a stale read that lets it overwrite the status of `t`. */
  ghost predicate Arms(p: Inflight, t: TaskId, deps: seq<TaskId>) {
    match p
    case ClaimRead(u, _, policy) => u == t && policy.Broadcast?
    case UnblockScan(todo) => t in todo && NoDuplicates(deps)
    case UnblockArmed(u, todo) => u == t || (t in todo && NoDuplicates(deps))
    case _ => false
  }

  ghost predicate Armed(s: Tower, t: TaskId)
    requires t in s.tasks
  {
    exists r :: r in s.inflight && Arms(s.inflight[r], t, s.tasks[t].dependsOn)
  }

  ghost predicate FinishedUnarmed(s: Tower, t: TaskId) {
    t in s.tasks && s.tasks[t].status.Finished? && !Armed(s, t)
  }

  lemma DepsFinishedIffDistinct(tasks: map<TaskId, Task>, deps: seq<TaskId>)
    requires forall d :: d in deps ==> d in tasks
    ensures DepsFinished(tasks, deps)
            <==> NoDuplicates(deps) && forall d :: d in deps ==> tasks[d].status.Finished?
  {
    var found := set d | d in deps && d in tasks;
    assert found == set d | d in deps;
    DistinctCount(deps);
  }

  lemma {:induction false} DistinctCount(deps: seq<TaskId>)
    ensures |set d | d in deps| <= |deps|
    ensures |set d | d in deps| == |deps| <==> NoDuplicates(deps)
  {
    if deps != [] {
      var front, last := deps[..|deps| - 1], deps[|deps| - 1];
      assert (set d | d in deps) == (set d | d in front) + {last};
      DistinctCount(front);
      LastDistinct(deps);
    }
  }

  lemma LastDistinct(deps: seq<TaskId>)
    requires deps != []
    ensures var front, last := deps[..|deps| - 1], deps[|deps| - 1];
            NoDuplicates(deps) <==> NoDuplicates(front) && last !in front
  {
    var front := deps[..|deps| - 1];
    assert forall i :: 0 <= i < |front| ==> front[i] == deps[i];
    if deps[|deps| - 1] in front {
      var i :| 0 <= i < |front| && front[i] == deps[|deps| - 1];
      assert deps[i] == deps[|deps| - 1];
    }
  }

  lemma UnarmedStep(s: Tower, step: Step, t: TaskId)
    requires DepsExist(s) && FinishedUnarmed(s, t)
    ensures FinishedUnarmed(Apply(s, step), t)
  {
    hide Apply, DepsExist, NoDuplicates;
    UnarmedStaysFinished(s, step, t);
    NothingArms(s, step, t);
  }

  lemma UnarmedStaysFinished(s: Tower, step: Step, t: TaskId)
    requires FinishedUnarmed(s, t)
    ensures var s' := Apply(s, step);
            t in s'.tasks && s'.tasks[t].status.Finished? && s'.tasks[t].dependsOn == s.tasks[t].dependsOn
  {
    hide Apply, Armed;
    if step.ClaimWrite? || step.UnblockWrite? {
      BlindWritesSpareUnarmed(s, step, t);
    } else if step.Complete? || step.Fail? || step.ResolveGate? {
      FinalStepsSpareFinished(s, step, t);
    } else {
      OtherStepsSpareFinished(s, step, t);
    }
  }

  lemma BlindWritesSpareUnarmed(s: Tower, step: Step, t: TaskId)
    requires FinishedUnarmed(s, t) && (step.ClaimWrite? || step.UnblockWrite?)
    ensures t in Apply(s, step).tasks && Apply(s, step).tasks[t] == s.tasks[t]
  {
    hide NoDuplicates;
  }

  lemma OtherStepsSpareFinished(s: Tower, step: Step, t: TaskId)
    requires t in s.tasks && s.tasks[t].status.Finished?
    requires !(step.ClaimWrite? || step.UnblockWrite? || step.Complete? || step.Fail? || step.ResolveGate?)
    ensures var s' := Apply(s, step);
            t in s'.tasks && s'.tasks[t].status.Finished? && s'.tasks[t].dependsOn == s.tasks[t].dependsOn
  {
    hide DepsFinished, NextSeq, Waits, Fresh, SqlEq, Clamp, Expire;
  }

  lemma FinalStepsSpareFinished(s: Tower, step: Step, t: TaskId)
    requires t in s.tasks && s.tasks[t].status.Finished?
    requires step.Complete? || step.Fail? || step.ResolveGate?
    ensures t in Apply(s, step).tasks && Apply(s, step).tasks[t] == s.tasks[t]
  {
    hide AnyRejected, AllResolved, HasPendingGate, Fresh, SqlEq;
  }

  lemma NothingArms(s: Tower, step: Step, t: TaskId)
    requires DepsExist(s) && FinishedUnarmed(s, t)
    ensures var s' := Apply(s, step);
            forall r :: r in s'.inflight ==> !Arms(s'.inflight[r], t, s.tasks[t].dependsOn)
  {
    hide Apply, DepsFinished, NoDuplicates;
    StepInflight(s, step);
    DepsFinishedIffDistinct(s.tasks, s.tasks[t].dependsOn);
  }

  lemma {:induction false} UnarmedRun(s: Tower, steps: seq<Step>, t: TaskId)
    requires DepsExist(s) && FinishedUnarmed(s, t)
    ensures FinishedUnarmed(Run(s, steps), t)
    decreases |steps|
  {
    hide Apply, DepsExist, FinishedUnarmed;
    if steps != [] {
      DepsExistStep(s, steps[0]);
      UnarmedStep(s, steps[0], t);
      UnarmedRun(Apply(s, steps[0]), steps[1..], t);
    }
  }

  lemma {:induction false} RunConcat(s: Tower, a: seq<Step>, b: seq<Step>)
    ensures Run(s, a + b) == Run(Run(s, a), b)
    decreases |a|
  {
    hide Apply;
    if a == [] {
      assert a + b == b;
    } else {
      assert (a + b)[1..] == a[1..] + b;
      RunConcat(Apply(s, a[0]), a[1..], b);
    }
  }

  lemma {:induction false} FreshNat(used: set<nat>) returns (n: nat)
    ensures forall k :: k in used ==> k < n
  {
    if used == {} {
      n := 0;
    } else {
      var x :| x in used;
      n := FreshNat(used - {x});
      n := if x < n then n else x + 1;
      assert forall k :: k in used ==> k == x || k in used - {x};
    }
  }

  const OPERATOR := Actor("operator", "operator", true, true)

  /** An operator can finish any task: cancel it, retry it, dispatch it. */
  lemma FinishOne(s: Tower, d: TaskId) returns (steps: seq<Step>)
    requires d in s.tasks && !s.tasks[d].status.Finished?
    ensures var s' := Run(s, steps);
            && s'.inflight == s.inflight && d in s'.tasks && s'.tasks == s.tasks[d := s'.tasks[d]]
            && s'.tasks[d].status.Finished? && s'.now == s.now
            && forall t :: t != d ==> AllSpare(steps, t)
  {
    hide Apply;
    var q := FreshNat(s.inflight.Keys);
    assert q !in s.inflight;
    var s1 := Apply(s, Cancel(OPERATOR, d));
    var s2 := Apply(s1, Retry(d));
    var s3 := Apply(s2, DispatchFetch(q, OPERATOR, d));
    CancelThenRetry(s, d);
    DispatchReady(s2, d, q);
    steps := [Cancel(OPERATOR, d), Retry(d), DispatchFetch(q, OPERATOR, d), DispatchWrite(q)];
    RunTwo(s, steps);
    RunTwo(s2, steps[2..]);
    assert steps[2..][2..] == [];
  }

  lemma CancelThenRetry(s: Tower, d: TaskId)
    requires d in s.tasks && !s.tasks[d].status.Finished?
    ensures var s2 := Apply(Apply(s, Cancel(OPERATOR, d)), Retry(d));
            && s2.inflight == s.inflight && d in s2.tasks && s2.tasks == s.tasks[d := s2.tasks[d]]
            && s2.tasks[d].status.Ready? && s2.now == s.now
  {
    hide SqlEq;
    var s1 := DoCancelStep(s, OPERATOR, d);
    if s.tasks[d].status.Cancelled? {
      assert s1 == s;
    } else {
      assert s1.tasks[d].status.Cancelled? && s1.tasks == s.tasks[d := s1.tasks[d]];
    }
  }

  lemma DispatchReady(s: Tower, d: TaskId, q: RequestId)
    requires d in s.tasks && s.tasks[d].status.Ready? && q !in s.inflight
    ensures var s2 := Apply(Apply(s, DispatchFetch(q, OPERATOR, d)), DispatchWrite(q));
            && s2.inflight == s.inflight && d in s2.tasks && s2.tasks == s.tasks[d := s2.tasks[d]]
            && s2.tasks[d].status.Finished? && s2.now == s.now
  {
    var s1 := Apply(s, DispatchFetch(q, OPERATOR, d));
    assert s1.inflight == s.inflight[q := DispatchRead(d)];
    assert s1.inflight - {q} == s.inflight;
  }

  lemma RunTwo(s: Tower, steps: seq<Step>)
    requires |steps| >= 2
    ensures Run(s, steps) == Run(Apply(Apply(s, steps[0]), steps[1]), steps[2..])
  {
    hide Apply;
    assert steps[1..][0] == steps[1] && steps[1..][1..] == steps[2..];
    assert Run(s, steps) == Run(Apply(s, steps[0]), steps[1..]);
  }

  /** All of `deps` can be brought to 'finished' without touching what is in flight. */
  lemma {:induction false} FinishAll(s: Tower, deps: seq<TaskId>, t: TaskId) returns (steps: seq<Step>)
    requires forall d :: d in deps ==> d in s.tasks
    requires t in s.tasks && (s.tasks[t].status.Finished? || t !in deps)
    ensures var s' := Run(s, steps);
            && s'.inflight == s.inflight && s'.tasks.Keys == s.tasks.Keys
            && s'.tasks[t] == s.tasks[t] && s'.now == s.now && AllSpare(steps, t)
            && forall d :: d in s.tasks && (d in deps || s.tasks[d].status.Finished?) ==> s'.tasks[d].status.Finished?
  {
    hide Apply;
    if deps == [] {
      steps := [];
    } else {
      var last := deps[|deps| - 1];
      var front := FinishAll(s, deps[..|deps| - 1], t);
      var s1 := Run(s, front);
      if s1.tasks[last].status.Finished? {
        steps := front;
      } else {
        var more := FinishOne(s1, last);
        RunConcat(s, front, more);
        assert AllSpare(more, t);
        SpareConcat(front, more, t);
        steps := front + more;
      }
    }
  }

  /** A stale reader that arms `t` can be driven to overwrite its status. */
  lemma ArmedCanUndo(s: Tower, t: TaskId) returns (steps: seq<Step>)
    requires DepsExist(s) && t in s.tasks && s.tasks[t].status.Finished? && Armed(s, t)
    ensures t in Run(s, steps).tasks && !Run(s, steps).tasks[t].status.Finished?
  {
    var r :| r in s.inflight && Arms(s.inflight[r], t, s.tasks[t].dependsOn);
    match s.inflight[r] {
      case ClaimRead(_, _, _) =>
        var used := set l | l in s.issued :: l.uuid;
        var n := FreshNat(used);
        assert forall l :: l in s.issued ==> l.uuid in used;
        assert n !in used && Lease(n).uuid == n;
        steps := [ClaimWrite(r, Lease(n))];
        RunOne(s, steps[0]);
      case UnblockScan(_) =>
        steps := ScanCanReady(s, t, r);
      case UnblockArmed(u, todo) =>
        RunOne(s, UnblockWrite(r));
        if u == t {
          steps := [UnblockWrite(r)];
        } else {
          var s1 := Apply(s, UnblockWrite(r));
          DepsExistStep(s, UnblockWrite(r));
          var rest := ScanCanReady(s1, t, r);
          RunConcat(s, [UnblockWrite(r)], rest);
          steps := [UnblockWrite(r)] + rest;
        }
    }
  }

  lemma RunOne(s: Tower, step: Step)
    ensures Run(s, [step]) == Apply(s, step)
  {
    hide Apply;
    assert [step][1..] == [];
  }

  /** A scan that holds `t` can be driven to ready it, without a request about `t`. */
  lemma ScanCanReady(s: Tower, t: TaskId, r: RequestId) returns (steps: seq<Step>)
    requires DepsExist(s) && t in s.tasks && (s.tasks[t].status.Finished? || t !in s.tasks[t].dependsOn)
    requires r in s.inflight && s.inflight[r].UnblockScan? && t in s.inflight[r].todo
              && NoDuplicates(s.tasks[t].dependsOn)
    ensures IsReady(Run(s, steps), t) && Run(s, steps).now == s.now && AllSpare(steps, t)
  {
    hide AllSpare;
    var finishing := FinishAll(s, s.tasks[t].dependsOn, t);
    var s1 := Run(s, finishing);
    DepsFinishedIffDistinct(s1.tasks, s1.tasks[t].dependsOn);
    CheckThenWrite(s1, t, r);
    var last := [UnblockCheck(r, t), UnblockWrite(r)];
    RunTwo(s1, last);
    assert last[2..] == [];
    RunConcat(s, finishing, last);
    steps := finishing + last;
    assert AllSpare(steps, t) by { SpareConcat(finishing, last, t); }
  }

  lemma SpareConcat(a: seq<Step>, b: seq<Step>, t: TaskId)
    requires AllSpare(a, t) && forall i :: 0 <= i < |b| ==> Spares(b[i], t)
    ensures AllSpare(a + b, t)
  {
  }

  lemma CheckThenWrite(s: Tower, t: TaskId, r: RequestId)
    requires t in s.tasks && DepsFinished(s.tasks, s.tasks[t].dependsOn)
    requires r in s.inflight && s.inflight[r].UnblockScan? && t in s.inflight[r].todo
    ensures var s' := Apply(Apply(s, UnblockCheck(r, t)), UnblockWrite(r));
            IsReady(s', t) && s'.now == s.now
  {
    hide DepsFinished;
  }

  /** A finished task stays finished through every continuation exactly when no request in
      flight still holds a stale read of it: a broadcast claim that saw it ready, or a
      scan for dependents that selected it while it was waiting. */
  lemma FinishedIsFinal(s: Tower, t: TaskId)
    requires DepsExist(s) && t in s.tasks && s.tasks[t].status.Finished?
    ensures (forall steps :: t in Run(s, steps).tasks && Run(s, steps).tasks[t].status.Finished?) <==> !Armed(s, t)
  {
    if Armed(s, t) {
      var steps := ArmedCanUndo(s, t);
    } else {
      forall steps
        ensures t in Run(s, steps).tasks && Run(s, steps).tasks[t].status.Finished?
      {
        UnarmedRun(s, steps, t);
      }
    }
  }

  /** One way it happens: of two claims of a ready broadcast task the first works and
      completes it, and the second, written late, sets the finished task running again. */
  lemma LateBroadcastClaimReopens(s: Tower, t: TaskId, r1: RequestId, r2: RequestId, r3: RequestId,
                                  a: AgentId, b: AgentId, first: Lease, late: Lease)
    requires t in s.tasks && s.tasks[t].status.Ready? && s.tasks[t].policy.Broadcast? && !HasPendingGate(s, t)
    requires r1 != r2 && r1 !in s.inflight && r2 !in s.inflight && r3 !in s.inflight && r3 != r1 && r3 != r2
    requires first != late && first !in s.issued && late !in s.issued
    ensures var claimed := Apply(Apply(Apply(s, ClaimFetch(r1, t, a)), ClaimFetch(r2, t, b)), ClaimWrite(r1, first));
            var done := Apply(claimed, Complete(r3, Actor(a, a, false, false), t, Some(first), None));
            var reopened := Apply(done, ClaimWrite(r2, late));
            && t in done.tasks && done.tasks[t].status.Finished?
            && t in reopened.tasks && reopened.tasks[t].status.Running? && reopened.tasks[t].claimer == Some(b)
  {
    hide HasPendingGate;
    var claimed := Apply(Apply(Apply(s, ClaimFetch(r1, t, a)), ClaimFetch(r2, t, b)), ClaimWrite(r1, first));
    assert claimed.gates == s.gates && claimed.tasks[t].status.Running? && claimed.tasks[t].claimer == Some(a);
    assert HasPendingGate(claimed, t) == HasPendingGate(s, t) by { SameGates(s, claimed, t); }
  }

  lemma SameGates(s: Tower, s': Tower, t: TaskId)
    requires s.gates == s'.gates
    ensures HasPendingGate(s, t) == HasPendingGate(s', t)
  {
  }
}
