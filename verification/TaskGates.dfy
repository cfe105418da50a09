/** Review gates over whole runs: a finished task has no gate pending, dispatches apart. */
module TaskGates {
  import opened Options
  import opened DependencyGraph
  import opened TaskLeases
  import opened TaskLifecycle
  import opened TaskClaims

  /** Every finished task has had its review. */
  ghost predicate Reviewed(s: Tower) {
    forall t :: t in s.tasks && s.tasks[t].status.Finished? ==> !HasPendingGate(s, t)
  }

  /** The second statement of a dispatch, taken while a gate of its task is pending. */
  predicate SkipsReview(s: Tower, step: Step) {
    step.DispatchWrite? && step.req in s.inflight && s.inflight[step.req].DispatchRead?
    && s.inflight[step.req].task in s.tasks && HasPendingGate(s, s.inflight[step.req].task)
  }

  /** Gates of a finished task are only ever resolved, never added. */
  lemma FinishedGainsNoGate(s: Tower, step: Step, t: TaskId)
    requires t in s.tasks && s.tasks[t].status.Finished? && !HasPendingGate(s, t)
    ensures !HasPendingGate(Apply(s, step), t)
  {
    hide AnyRejected, AllResolved, FenceLive, FenceFinal, NextSeq, Sweepable, SqlEq, DepsFinished, Waits, Clamp;
    if step.CreateGate? || step.ResolveGate? {
    } else {
      GatesUntouched(s, step);
    }
  }

  lemma GatesUntouched(s: Tower, step: Step)
    requires !step.CreateGate? && !step.ResolveGate?
    ensures Apply(s, step).gates == s.gates
  {
    hide HasPendingGate, FenceLive, FenceFinal, NextSeq, Sweepable, SqlEq, DepsFinished, Waits, Clamp;
  }

  lemma NewRowsUnfinished(s: Tower, step: Step, t: TaskId)
    requires t !in s.tasks
    ensures t in Apply(s, step).tasks ==> !Apply(s, step).tasks[t].status.Finished?
  {
    if !step.Insert? && !step.Sweep? {
      hide Apply;
      PlainRow(s, step, t);
    }
  }

  lemma ReviewedStep(s: Tower, step: Step)
    requires Reviewed(s) && !SkipsReview(s, step)
    ensures Reviewed(Apply(s, step))
  {
    hide HasPendingGate;
    forall t | t in Apply(s, step).tasks && Apply(s, step).tasks[t].status.Finished?
      ensures !HasPendingGate(Apply(s, step), t)
    {
      ReviewedRow(s, step, t);
    }
  }

  lemma ReviewedRow(s: Tower, step: Step, t: TaskId)
    requires Reviewed(s) && !SkipsReview(s, step)
    requires t in Apply(s, step).tasks && Apply(s, step).tasks[t].status.Finished?
    ensures !HasPendingGate(Apply(s, step), t)
  {
    hide HasPendingGate, Apply;
    if t !in s.tasks {
      NewRowsUnfinished(s, step, t);
    } else if s.tasks[t].status.Finished? {
      FinishedGainsNoGate(s, step, t);
    } else {
      FinishRespectsGates(s, step, t);
      if step.DispatchWrite? {
        DispatchTarget(s, step.req, t);
        GatesUntouched(s, step);
        SameGates(s, Apply(s, step), t);
      }
    }
  }

  lemma DispatchTarget(s: Tower, r: RequestId, t: TaskId)
    requires t in s.tasks && !s.tasks[t].status.Finished? && t in Apply(s, DispatchWrite(r)).tasks
    requires Apply(s, DispatchWrite(r)).tasks[t].status.Finished?
    ensures r in s.inflight && s.inflight[r] == DispatchRead(t)
  {
  }

  lemma SkippingLeavesPending(s: Tower, step: Step)
    requires SkipsReview(s, step)
    ensures !Reviewed(Apply(s, step))
  {
    hide HasPendingGate;
    var t := s.inflight[step.req].task;
    GatesUntouched(s, step);
    SameGates(s, Apply(s, step), t);
    assert Apply(s, step).tasks[t].status.Finished?;
  }

  ghost predicate AlwaysReviewed(s: Tower, steps: seq<Step>) {
    forall k :: 0 <= k <= |steps| ==> Reviewed(Run(s, steps[..k]))
  }

  ghost predicate NeverSkips(s: Tower, steps: seq<Step>) {
    forall k :: 0 <= k < |steps| ==> !SkipsReview(Run(s, steps[..k]), steps[k])
  }

  lemma RunSnoc(s: Tower, steps: seq<Step>, k: nat)
    requires k < |steps|
    ensures Run(s, steps[..k + 1]) == Apply(Run(s, steps[..k]), steps[k])
  {
    hide Apply;
    assert steps[..k + 1] == steps[..k] + [steps[k]];
    RunConcat(s, steps[..k], [steps[k]]);
    RunOne(Run(s, steps[..k]), steps[k]);
  }

  /** Over every run: no finished task ever has a pending gate if and only if no dispatch is
      written while a gate of its task is pending. */
  lemma ReviewedIffNoDispatchSkips(s: Tower, steps: seq<Step>)
    requires Reviewed(s)
    ensures AlwaysReviewed(s, steps) <==> NeverSkips(s, steps)
  {
    hide Apply, Reviewed, SkipsReview, Run;
    if AlwaysReviewed(s, steps) {
      forall k | 0 <= k < |steps|
        ensures !SkipsReview(Run(s, steps[..k]), steps[k])
      {
        RunSnoc(s, steps, k);
        assert Reviewed(Run(s, steps[..k + 1]));
        if SkipsReview(Run(s, steps[..k]), steps[k]) {
          SkippingLeavesPending(Run(s, steps[..k]), steps[k]);
          assert false;
        }
      }
    } else {
      var k :| 0 <= k <= |steps| && !Reviewed(Run(s, steps[..k]));
      FirstSkip(s, steps, k);
    }
  }

  lemma {:induction false} FirstSkip(s: Tower, steps: seq<Step>, k: nat)
    requires Reviewed(s) && k <= |steps| && !Reviewed(Run(s, steps[..k]))
    ensures !NeverSkips(s, steps)
  {
    hide Apply, Reviewed, SkipsReview, Run;
    if k == 0 {
      RunNone(s, steps[..0]);
      assert false;
    } else if Reviewed(Run(s, steps[..k - 1])) {
      RunSnoc(s, steps, k - 1);
      if !SkipsReview(Run(s, steps[..k - 1]), steps[k - 1]) {
        ReviewedStep(Run(s, steps[..k - 1]), steps[k - 1]);
        assert false;
      }
    } else {
      FirstSkip(s, steps, k - 1);
    }
  }

  lemma EmptyIsReviewed()
    ensures Reviewed(EMPTY_TOWER)
  {
  }

  /** So it is from the empty tower on. */
  lemma ReviewsFromEmpty(steps: seq<Step>)
    ensures AlwaysReviewed(EMPTY_TOWER, steps) <==> NeverSkips(EMPTY_TOWER, steps)
  {
    hide AlwaysReviewed, NeverSkips;
    EmptyIsReviewed();
    ReviewedIffNoDispatchSkips(EMPTY_TOWER, steps);
  }

  // ---------- How a review is skipped ----------

  const CLAIMER := Actor("x", "x", false, false)

  /** A claimer asks for a review, blocks and unblocks the task; its creator dispatches it. */
  function UnreviewedRun(t: TaskId): seq<Step> {
    [Insert(t, 0, Exclusive, [], true, CREATOR), McpClaim(t, "x", Lease(0), 60), CreateGate(CLAIMER, 0, t)]
    + [Block(CLAIMER, t, None), Unblock(CLAIMER, t)]
    + [DispatchFetch(1, Actor(CREATOR, CREATOR, false, false), t), DispatchWrite(1)]
  }

  lemma ClaimedAndGated(t: TaskId)
    ensures var s := Apply(Apply(Apply(EMPTY_TOWER, Insert(t, 0, Exclusive, [], true, CREATOR)),
                                 McpClaim(t, "x", Lease(0), 60)),
                           CreateGate(CLAIMER, 0, t));
            && t in s.tasks && s.tasks[t].status.Claimed? && s.tasks[t].claimer == Some("x")
                 && s.tasks[t].createdBy == CREATOR
            && s.gates == map[0 := Gate(t, "x", GatePending)] && s.inflight == map[]
  {
  }

  lemma BlockedAndUnblocked(s: Tower, t: TaskId)
    requires t in s.tasks && s.tasks[t].status.Claimed? && s.tasks[t].claimer == Some("x")
    ensures var s' := Apply(Apply(s, Block(CLAIMER, t, None)), Unblock(CLAIMER, t));
            && t in s'.tasks && s'.tasks[t].status.Ready? && s'.tasks[t].createdBy == s.tasks[t].createdBy
            && s'.gates == s.gates && s'.inflight == s.inflight
  {
  }

  lemma DispatchedByCreator(s: Tower, t: TaskId)
    requires t in s.tasks && s.tasks[t].status.Ready? && s.tasks[t].createdBy == CREATOR && s.inflight == map[]
    ensures var s' := Apply(Apply(s, DispatchFetch(1, Actor(CREATOR, CREATOR, false, false), t)), DispatchWrite(1));
            t in s'.tasks && s'.tasks[t].status.Finished? && s'.gates == s.gates
  {
  }

  /** That run ends with the task finished and its gate pending. */
  lemma DispatchSkipsReview(t: TaskId)
    ensures var s := Run(EMPTY_TOWER, UnreviewedRun(t));
            t in s.tasks && s.tasks[t].status.Finished? && HasPendingGate(s, t)
  {
    hide Apply, Run;
    var run := UnreviewedRun(t);
    var a, b, c := run[..3], run[3..5], run[5..];
    assert run == a + b + c;
    RunConcat(EMPTY_TOWER, a + b, c);
    RunConcat(EMPTY_TOWER, a, b);
    RunThree(EMPTY_TOWER, a);
    ClaimedAndGated(t);
    var s1 := Run(EMPTY_TOWER, a);
    RunTwo(s1, b);
    RunNone(Apply(Apply(s1, b[0]), b[1]), b[2..]);
    BlockedAndUnblocked(s1, t);
    var s2 := Run(s1, b);
    RunTwo(s2, c);
    RunNone(Apply(Apply(s2, c[0]), c[1]), c[2..]);
    DispatchedByCreator(s2, t);
    var s := Run(EMPTY_TOWER, run);
    assert 0 in s.gates && s.gates[0].task == t && s.gates[0].status.GatePending?;
  }
}
