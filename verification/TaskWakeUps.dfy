/** Lost wake-ups over whole runs: which steps leave a task pending that nothing will ready. */
module TaskWakeUps {
  import opened Options
  import opened DependencyGraph
  import opened TaskLeases
  import opened TaskLifecycle
  import opened TaskClaims
  import opened TaskGates
  import opened TaskScans

  /** A task depends on tasks of its own mission, whose scans look for it. */
  ghost predicate SameMission(s: Tower) {
    forall t, d :: t in s.tasks && d in s.tasks[t].dependsOn ==>
      d in s.tasks && s.tasks[d].mission == s.tasks[t].mission
  }

  lemma SameMissionStep(s: Tower, step: Step)
    requires SameMission(s)
    ensures SameMission(Apply(s, step))
  {
    hide Apply;
    StepRows(s, step);
  }

  lemma {:induction false} SameMissionRun(s: Tower, steps: seq<Step>)
    requires SameMission(s)
    ensures SameMission(Run(s, steps))
    decreases |steps|
  {
    hide Apply, SameMission;
    if steps != [] {
      SameMissionStep(s, steps[0]);
      SameMissionRun(Apply(s, steps[0]), steps[1..]);
    }
  }

  /** Every pending task whose dependencies are finished is still held by a scan. */
  ghost predicate NoneLost(s: Tower) {
    forall t :: Due(s, t) ==> Attended(s, t, s.tasks[t])
  }

  /** `d` is the one dependency that `t` still waits for. */
  ghost predicate LastOpen(s: Tower, t: TaskId, d: TaskId)
    requires t in s.tasks
  {
    && s.tasks[t].status.Pending? && NoDuplicates(s.tasks[t].dependsOn) && d in s.tasks[t].dependsOn
    && forall e :: e in s.tasks[t].dependsOn && e != d ==> e in s.tasks && s.tasks[e].status.Finished?
  }

  /** The two steps that lose a wake-up: a dispatch of the last dependency a task waits for,
      and the insert of a task as pending when its dependencies are finished by now. */
  ghost predicate Loses(s: Tower, step: Step) {
    match step
    case DispatchWrite(r) =>
      && r in s.inflight && s.inflight[r].DispatchRead?
      && var d := s.inflight[r].task;
         && d in s.tasks && !s.tasks[d].status.Finished?
         && exists t :: t in s.tasks && t != d && LastOpen(s, t, d) && !Attended(s, t, s.tasks[t])
    case Insert(id, m, p, deps, ready, who) =>
      && Accepts(s, id, m, deps) && !ready && deps != [] && NoDuplicates(deps)
      && (forall d :: d in deps ==> s.tasks[d].status.Finished?)
      && !Attended(s, id, NewTask(m, p, deps, ready, who))
    case _ => false
  }

  // ---------- What a step leaves of a pending task ----------

  /** No statement writes 'pending', and none writes a row and leaves it pending. */
  lemma PendingIsOld(s: Tower, step: Step, t: TaskId)
    requires t in s.tasks && t in Apply(s, step).tasks && Apply(s, step).tasks[t].status.Pending?
    ensures Apply(s, step).tasks[t] == s.tasks[t]
  {
    hide Apply;
    if IsClaimerStep(step) {
      ClaimerLeavesPending(s, step, t);
    } else {
      OtherLeavesPending(s, step, t);
    }
  }

  lemma ClaimerLeavesPending(s: Tower, step: Step, t: TaskId)
    requires IsClaimerStep(step)
    requires t in s.tasks && t in Apply(s, step).tasks && Apply(s, step).tasks[t].status.Pending?
    ensures Apply(s, step).tasks[t] == s.tasks[t]
  {
    hide HasPendingGate, FenceLive, FenceFinal, NextSeq, SqlEq;
  }

  lemma OtherLeavesPending(s: Tower, step: Step, t: TaskId)
    requires !IsClaimerStep(step)
    requires t in s.tasks && t in Apply(s, step).tasks && Apply(s, step).tasks[t].status.Pending?
    ensures Apply(s, step).tasks[t] == s.tasks[t]
  {
    hide DepsFinished, AnyRejected, AllResolved, Waits, SqlEq, Clamp;
  }

  /** Only its own statements move a scan. */
  lemma ScanStays(s: Tower, step: Step, r: RequestId)
    requires r in s.inflight && !s.inflight[r].ClaimRead? && !s.inflight[r].DispatchRead?
    requires IsScan(step) ==> step.req != r
    ensures r in Apply(s, step).inflight && Apply(s, step).inflight[r] == s.inflight[r]
  {
    hide Apply;
    if IsClaimerStep(step) {
      ClaimerLeavesScan(s, step, r);
    } else {
      OtherLeavesScan(s, step, r);
    }
  }

  lemma ClaimerLeavesScan(s: Tower, step: Step, r: RequestId)
    requires IsClaimerStep(step) && r in s.inflight
    ensures r in Apply(s, step).inflight && Apply(s, step).inflight[r] == s.inflight[r]
  {
    hide HasPendingGate, FenceLive, FenceFinal, NextSeq, SqlEq;
  }

  lemma OtherLeavesScan(s: Tower, step: Step, r: RequestId)
    requires !IsClaimerStep(step) && (IsScan(step) ==> step.req != r)
    requires r in s.inflight && !s.inflight[r].ClaimRead? && !s.inflight[r].DispatchRead?
    ensures r in Apply(s, step).inflight && Apply(s, step).inflight[r] == s.inflight[r]
  {
    hide DepsFinished, AnyRejected, AllResolved, Waits, SqlEq, Clamp, Sweepable, Expire, Accepts, NewTask;
  }

  /** A due task stays attended as long as it is due. */
  lemma AttendedStays(s: Tower, step: Step, t: TaskId)
    requires Due(s, t) && Attended(s, t, s.tasks[t])
    requires Due(Apply(s, step), t)
    ensures Attended(Apply(s, step), t, s.tasks[t])
  {
    hide Apply, Due;
    DueIsPending(s, t);
    if IsScan(step) {
      AttendedStep(s, step, t);
      assert !IsReady(Apply(s, step), t) by { DueIsPending(Apply(s, step), t); }
    } else {
      var r :| r in s.inflight && Attends(s.inflight[r], t, s.tasks[t]);
      ScanStays(s, step, r);
    }
  }

  lemma DueIsPending(s: Tower, t: TaskId)
    requires Due(s, t)
    ensures t in s.tasks && s.tasks[t].status.Pending? && DepsFinished(s.tasks, s.tasks[t].dependsOn)
  {
  }

  // ---------- What a step that finishes a dependency leaves ----------

  /** A completion or an approval that finishes `d` starts the scan for its dependents. */
  lemma FinishingScans(s: Tower, step: Step, d: TaskId) returns (r: RequestId)
    requires step.Complete? || step.ResolveGate?
    requires d in s.tasks && !s.tasks[d].status.Finished?
    requires d in Apply(s, step).tasks && Apply(s, step).tasks[d].status.Finished?
    ensures r in Apply(s, step).inflight && Apply(s, step).inflight[r] == UnblockStart(s.tasks[d].mission, d)
  {
    hide HasPendingGate, FenceFinal, AnyRejected, AllResolved, SqlEq;
    r := step.req;
  }

  lemma DispatchWrites(s: Tower, r: RequestId, d: TaskId)
    requires d in s.tasks && !s.tasks[d].status.Finished?
    requires d in Apply(s, DispatchWrite(r)).tasks && Apply(s, DispatchWrite(r)).tasks[d].status.Finished?
    ensures r in s.inflight && s.inflight[r] == DispatchRead(d)
    ensures forall t :: t in s.tasks && t != d ==> Apply(s, DispatchWrite(r)).tasks[t] == s.tasks[t]
  {
  }

  /** Some dependency was open before a step that makes a pending task due. */
  lemma OpenBefore(s: Tower, step: Step, t: TaskId) returns (d: TaskId)
    requires SameMission(s) && t in s.tasks && Apply(s, step).tasks.Keys >= s.tasks.Keys
    requires Apply(s, step).tasks[t] == s.tasks[t] && Due(Apply(s, step), t) && !Due(s, t)
    ensures d in s.tasks[t].dependsOn && d in s.tasks && !s.tasks[d].status.Finished?
    ensures NoDuplicates(s.tasks[t].dependsOn)
    ensures forall e :: e in s.tasks[t].dependsOn ==> e in s.tasks && Apply(s, step).tasks[e].status.Finished?
  {
    hide Apply, DepsFinished, NoDuplicates;
    var deps := s.tasks[t].dependsOn;
    DepsFinishedIffDistinct(s.tasks, deps);
    DepsFinishedIffDistinct(Apply(s, step).tasks, deps);
    d :| d in deps && !s.tasks[d].status.Finished?;
  }

  /** A task that a step makes due is attended, unless the step loses its wake-up. */
  lemma NewlyDueAttended(s: Tower, step: Step, t: TaskId)
    requires SameMission(s) && t in s.tasks && t in Apply(s, step).tasks
    requires Due(Apply(s, step), t) && !Due(s, t) && !Loses(s, step)
    ensures Attended(Apply(s, step), t, Apply(s, step).tasks[t])
  {
    hide Apply, Due, NoDuplicates, SameMission;
    DueIsPending(Apply(s, step), t);
    PendingIsOld(s, step, t);
    StepRows(s, step);
    var d := OpenBefore(s, step, t);
    if step.Complete? || step.ResolveGate? {
      var r := FinishingScans(s, step, d);
      assert s.tasks[d].mission == s.tasks[t].mission by { DepMission(s, t, d); }
      assert Attends(Apply(s, step).inflight[r], t, s.tasks[t]);
    } else if step.DispatchWrite? {
      DispatchWrites(s, step.req, d);
      assert LastOpen(s, t, d);
      assert Attended(s, t, s.tasks[t]);
      var r :| r in s.inflight && Attends(s.inflight[r], t, s.tasks[t]);
      ScanStays(s, step, r);
    } else {
      OthersDoNotFinish(s, step, d);
      assert false;
    }
  }

  lemma DepMission(s: Tower, t: TaskId, d: TaskId)
    requires SameMission(s) && t in s.tasks && d in s.tasks[t].dependsOn
    ensures d in s.tasks && s.tasks[d].mission == s.tasks[t].mission
  {
  }

  /** A new task that is due is attended, unless its insert loses the wake-up. */
  lemma NewTaskAttended(s: Tower, step: Step, t: TaskId)
    requires t !in s.tasks && Due(Apply(s, step), t) && !Loses(s, step)
    ensures Attended(Apply(s, step), t, Apply(s, step).tasks[t])
  {
    hide DepsFinished, NoDuplicates;
    if step.Insert? {
      DepsFinishedIffDistinct(Apply(s, step).tasks, step.deps);
    } else {
      hide Apply;
      StepAddsNothing(s, step, t);
    }
  }

  lemma StepAddsNothing(s: Tower, step: Step, t: TaskId)
    requires !step.Insert? && t !in s.tasks
    ensures t !in Apply(s, step).tasks
  {
    if !step.Sweep? {
      hide Apply;
      PlainRow(s, step, t);
    }
  }

  lemma NoneLostStep(s: Tower, step: Step)
    requires NoneLost(s) && SameMission(s) && !Loses(s, step)
    ensures NoneLost(Apply(s, step))
  {
    hide Apply, DepsFinished, Attended, Loses, SameMission;
    forall t | Due(Apply(s, step), t)
      ensures Attended(Apply(s, step), t, Apply(s, step).tasks[t])
    {
      DueIsPending(Apply(s, step), t);
      if t !in s.tasks {
        NewTaskAttended(s, step, t);
      } else if Due(s, t) {
        PendingIsOld(s, step, t);
        AttendedStays(s, step, t);
      } else {
        NewlyDueAttended(s, step, t);
      }
    }
  }

  // ---------- What a losing step leaves ----------

  lemma LosingDispatch(s: Tower, r: RequestId)
    requires SameMission(s) && Loses(s, DispatchWrite(r))
    ensures !NoneLost(Apply(s, DispatchWrite(r)))
  {
    hide NoDuplicates, DepsFinished, Waits;
    var d := s.inflight[r].task;
    var t :| t in s.tasks && t != d && LastOpen(s, t, d) && !Attended(s, t, s.tasks[t]);
    var s' := Apply(s, DispatchWrite(r));
    DepsFinishedIffDistinct(s'.tasks, s.tasks[t].dependsOn);
    assert Due(s', t);
    forall q | q in s'.inflight
      ensures !Attends(s'.inflight[q], t, s.tasks[t])
    {
      assert s'.inflight[q] == s.inflight[q];
    }
  }

  lemma LosingInsert(s: Tower, step: Step)
    requires step.Insert? && Loses(s, step)
    ensures !NoneLost(Apply(s, step))
  {
    hide NoDuplicates, DepsFinished, Waits;
    var s' := Apply(s, step);
    DepsFinishedIffDistinct(s'.tasks, step.deps);
    assert Due(s', step.id);
    forall q | q in s'.inflight
      ensures !Attends(s'.inflight[q], step.id, s'.tasks[step.id])
    {
      assert s'.inflight[q] == s.inflight[q];
    }
  }

  lemma LosingStep(s: Tower, step: Step)
    requires SameMission(s) && Loses(s, step)
    ensures !NoneLost(Apply(s, step))
  {
    hide Apply, NoneLost;
    if step.Insert? {
      LosingInsert(s, step);
    } else {
      LosingDispatch(s, step.req);
    }
  }

  // ---------- Over runs ----------

  ghost predicate AlwaysAttended(s: Tower, steps: seq<Step>) {
    forall k :: 0 <= k <= |steps| ==> NoneLost(Run(s, steps[..k]))
  }

  ghost predicate NeverLoses(s: Tower, steps: seq<Step>) {
    forall k :: 0 <= k < |steps| ==> !Loses(Run(s, steps[..k]), steps[k])
  }

  /** Over every run: at no time is a task pending with its dependencies finished and no scan
      to look at it, if and only if no dispatch finishes the last dependency of an unattended
      task and no insert writes 'pending' behind the last scan. */
  lemma NoneLostIffNeverLoses(s: Tower, steps: seq<Step>)
    requires NoneLost(s) && SameMission(s)
    ensures AlwaysAttended(s, steps) <==> NeverLoses(s, steps)
  {
    hide Apply, NoneLost, SameMission, Loses, Run;
    if AlwaysAttended(s, steps) {
      forall k | 0 <= k < |steps|
        ensures !Loses(Run(s, steps[..k]), steps[k])
      {
        RunSnoc(s, steps, k);
        SameMissionRun(s, steps[..k]);
        assert NoneLost(Run(s, steps[..k + 1]));
        if Loses(Run(s, steps[..k]), steps[k]) {
          LosingStep(Run(s, steps[..k]), steps[k]);
          assert false;
        }
      }
    } else {
      var k :| 0 <= k <= |steps| && !NoneLost(Run(s, steps[..k]));
      FirstLoss(s, steps, k);
    }
  }

  lemma {:induction false} FirstLoss(s: Tower, steps: seq<Step>, k: nat)
    requires NoneLost(s) && SameMission(s) && k <= |steps| && !NoneLost(Run(s, steps[..k]))
    ensures !NeverLoses(s, steps)
  {
    hide Apply, NoneLost, SameMission, Loses, Run;
    if k == 0 {
      RunNone(s, steps[..0]);
      assert false;
    } else if NoneLost(Run(s, steps[..k - 1])) {
      RunSnoc(s, steps, k - 1);
      SameMissionRun(s, steps[..k - 1]);
      if !Loses(Run(s, steps[..k - 1]), steps[k - 1]) {
        NoneLostStep(Run(s, steps[..k - 1]), steps[k - 1]);
        assert false;
      }
    } else {
      FirstLoss(s, steps, k - 1);
    }
  }

  /** From the empty tower, and once the scans have run to their end: unless a wake-up was
      lost, every pending task waits for a dependency or lists one twice. */
  lemma WakeUpsFromEmpty(steps: seq<Step>)
    ensures AlwaysAttended(EMPTY_TOWER, steps) <==> NeverLoses(EMPTY_TOWER, steps)
    ensures var s := Run(EMPTY_TOWER, steps);
            NeverLoses(EMPTY_TOWER, steps) && Drained(s) ==> forall t :: !Due(s, t)
  {
    hide Apply, Run, Loses, Due, Waits;
    EmptyLosesNone();
    NoneLostIffNeverLoses(EMPTY_TOWER, steps);
    if NeverLoses(EMPTY_TOWER, steps) && Drained(Run(EMPTY_TOWER, steps)) {
      assert steps[..|steps|] == steps;
      DrainedNoneDue(Run(EMPTY_TOWER, steps));
    }
  }

  lemma EmptyLosesNone()
    ensures NoneLost(EMPTY_TOWER) && SameMission(EMPTY_TOWER)
  {
  }

  lemma DrainedNoneDue(s: Tower)
    requires NoneLost(s) && Drained(s)
    ensures forall t :: !Due(s, t)
  {
  }

  // ---------- How a wake-up is lost ----------

  const CREATING := Actor(CREATOR, CREATOR, false, false)

  /** A dispatch finishes a task and starts no scan: nothing in flight readies its dependent. */
  lemma DispatchLosesWakeUp(d: TaskId, t: TaskId)
    requires d != t
    ensures var steps := [Insert(d, 0, Exclusive, [], true, CREATOR), Insert(t, 0, Exclusive, [d], false, CREATOR)]
                         + [DispatchFetch(1, CREATING, d), DispatchWrite(1)];
            Due(Run(EMPTY_TOWER, steps), t) && Run(EMPTY_TOWER, steps).inflight == map[]
  {
    hide Apply, Run, DepsFinished;
    var a := [Insert(d, 0, Exclusive, [], true, CREATOR), Insert(t, 0, Exclusive, [d], false, CREATOR)];
    var b := [DispatchFetch(1, CREATING, d), DispatchWrite(1)];
    RunConcat(EMPTY_TOWER, a, b);
    RunTwo(EMPTY_TOWER, a);
    RunNone(Apply(Apply(EMPTY_TOWER, a[0]), a[1]), a[2..]);
    InsertedPair(d, t);
    var s1 := Run(EMPTY_TOWER, a);
    RunTwo(s1, b);
    RunNone(Apply(Apply(s1, b[0]), b[1]), b[2..]);
    DispatchedQuietly(s1, d);
    DepsFinishedIffDistinct(Run(s1, b).tasks, [d]);
  }

  lemma InsertedPair(d: TaskId, t: TaskId)
    requires d != t
    ensures var s := Apply(Apply(EMPTY_TOWER, Insert(d, 0, Exclusive, [], true, CREATOR)),
                           Insert(t, 0, Exclusive, [d], false, CREATOR));
            && d in s.tasks && s.tasks[d].status.Ready? && s.tasks[d].createdBy == CREATOR
            && t in s.tasks && s.tasks[t].status.Pending? && s.tasks[t].dependsOn == [d] && s.inflight == map[]
  {
  }

  lemma DispatchedQuietly(s: Tower, d: TaskId)
    requires d in s.tasks && s.tasks[d].status.Ready? && s.tasks[d].createdBy == CREATOR && s.inflight == map[]
    ensures var s' := Apply(Apply(s, DispatchFetch(1, CREATING, d)), DispatchWrite(1));
            && d in s'.tasks && s'.tasks[d].status.Finished? && s'.inflight == map[]
            && forall t :: t in s.tasks && t != d ==> t in s'.tasks && s'.tasks[t] == s.tasks[t]
  {
  }

  /** A task is inserted as pending, as it should have been when its dependency was read; by
      then the dependency is finished and the scan that started has selected. */
  lemma StaleInsertLosesWakeUp(d: TaskId, t: TaskId)
    requires d != t
    ensures var first := [Insert(d, 0, Exclusive, [], true, CREATOR)];
            var then_ := [McpClaim(d, "w", Lease(0), 60), Complete(1, WORKER, d, Some(Lease(0)), None),
                          UnblockSelect(1), Insert(t, 0, Exclusive, [d], false, CREATOR)];
            var s := Run(EMPTY_TOWER, first + then_);
            && !DepsFinished(Run(EMPTY_TOWER, first).tasks, [d])
            && Due(s, t) && !Attended(s, t, s.tasks[t])
  {
    hide Apply, Run, DepsFinished;
    var first := [Insert(d, 0, Exclusive, [], true, CREATOR)];
    var then_ := [McpClaim(d, "w", Lease(0), 60), Complete(1, WORKER, d, Some(Lease(0)), None),
                  UnblockSelect(1), Insert(t, 0, Exclusive, [d], false, CREATOR)];
    RunConcat(EMPTY_TOWER, first, then_);
    RunOne(EMPTY_TOWER, first[0]);
    InsertedFirst(d);
    var s1 := Run(EMPTY_TOWER, first);
    RunTwo(s1, then_);
    ClaimedFirst(s1, d);
    var s2 := Apply(s1, then_[0]);
    Completed(s2, d, 1, Lease(0));
    var s3 := Apply(s2, then_[1]);
    RunTwo(s3, then_[2..]);
    RunNone(Apply(Apply(s3, then_[2]), then_[3]), then_[2..][2..]);
    SelectedThenInserted(s3, d, t);
    assert d in [d] && s1.tasks[d] == Free();
    DepsFinishedIffDistinct(s1.tasks, [d]);
    DepsFinishedIffDistinct(Run(s3, then_[2..]).tasks, [d]);
  }

  lemma InsertedFirst(d: TaskId)
    ensures Apply(EMPTY_TOWER, Insert(d, 0, Exclusive, [], true, CREATOR)) == EMPTY_TOWER.(tasks := map[d := Free()])
  {
  }

  lemma ClaimedFirst(s: Tower, d: TaskId)
    requires s == EMPTY_TOWER.(tasks := map[d := Free()])
    ensures var s' := Apply(s, McpClaim(d, "w", Lease(0), 60));
            && s'.tasks.Keys == {d} && s'.tasks[d].status.Claimed? && s'.tasks[d].claimer == Some("w")
            && s'.tasks[d].mission == 0 && s'.gates == map[] && s'.inflight == map[]
  {
  }

  lemma SelectedThenInserted(s: Tower, d: TaskId, t: TaskId)
    requires d != t && s.tasks.Keys == {d} && s.tasks[d].status.Finished? && s.tasks[d].mission == 0
    requires s.inflight == map[1 := UnblockStart(0, d)]
    ensures var s' := Apply(Apply(s, UnblockSelect(1)), Insert(t, 0, Exclusive, [d], false, CREATOR));
            && s'.tasks == s.tasks[t := NewTask(0, Exclusive, [d], false, CREATOR)]
            && s'.inflight == map[1 := UnblockScan({})]
  {
    assert (set c | c in s.tasks && Waits(s.tasks[c], 0, d)) == {};
  }
}
