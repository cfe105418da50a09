/** Decisions on review gates: what a gate records over a run, and what a decision does to its
    task. */
module TaskDecisions {
  import opened Options
  import opened DependencyGraph
  import opened TaskLeases
  import opened TaskLifecycle
  import opened TaskClaims
  import opened TaskGates

  // ---------- What one decision does ----------

  /** Rejecting a pending gate of a task in review records the rejection, fails the task, takes
      its claim off, credits the claimer, and starts no scan for dependents. */
  lemma RejectionFails(s: Tower, r: RequestId, a: Actor, g: GateId, t: TaskId)
    requires r !in s.inflight && g in s.gates && s.gates[g].task == t && s.gates[g].status.GatePending?
    requires s.gates[g].owner == a.subject || a.admin
    requires t in s.tasks && s.tasks[t].status.WaitingReview?
    ensures var s' := Apply(s, ResolveGate(r, a, g, t, false));
            && g in s'.gates && s'.gates[g] == s.gates[g].(status := Rejected) && s'.gates - {g} == s.gates - {g}
            && s'.tasks[t].status == Failed && s'.tasks[t].claimer == None && s'.tasks[t].lease == None
            && s'.tasks[t].expires == None && s'.inflight == s.inflight
            && (s.tasks[t].claimer.Some? ==> s'.tasks[t].finalizedBy == s.tasks[t].claimer)
  {
    var gates := s.gates[g := s.gates[g].(status := Rejected)];
    assert g in gates && gates[g].task == t && gates[g].status.Rejected?;
    hide AllResolved;
    assert AnyRejected(gates, t);
  }

  /** Approving one records the approval. While another gate of the task is pending, and none
      was rejected, the task goes on waiting; otherwise it is over, and only a finished one
      starts the scan for dependents. */
  lemma ApprovalTakesEffect(s: Tower, r: RequestId, a: Actor, g: GateId, t: TaskId)
    requires r !in s.inflight && g in s.gates && s.gates[g].task == t && s.gates[g].status.GatePending?
    requires s.gates[g].owner == a.subject || a.admin
    requires t in s.tasks && s.tasks[t].status.WaitingReview?
    ensures var s' := Apply(s, ResolveGate(r, a, g, t, true));
            var rejected := exists h :: h in s.gates && s.gates[h].task == t && s.gates[h].status == Rejected;
            var open := exists h :: h in s.gates && h != g && s.gates[h].task == t && s.gates[h].status == GatePending;
            && g in s'.gates && s'.gates[g] == s.gates[g].(status := Approved) && s'.gates - {g} == s.gates - {g}
            && if rejected then
                 s'.tasks[t].status == Failed && s'.tasks[t].claimer == None && s'.inflight == s.inflight
               else if open then s'.tasks == s.tasks && s'.inflight == s.inflight
               else
                 && s'.tasks[t].status == Finished && s'.tasks[t].claimer == None && s'.tasks[t].lease == None
                 && s'.tasks[t].expires == None
                 && s'.inflight == s.inflight[r := UnblockStart(s.tasks[t].mission, t)]
  {
    ApprovedGates(s.gates, g, t);
    hide AnyRejected, AllResolved;
  }

  /** How the gates of a task stand once one of them is approved. */
  lemma ApprovedGates(before: map<GateId, Gate>, g: GateId, t: TaskId)
    requires g in before && before[g].task == t && before[g].status == GatePending
    ensures var gates := before[g := before[g].(status := Approved)];
            var rejected := exists h :: h in before && before[h].task == t && before[h].status == Rejected;
            var open := exists h :: h in before && h != g && before[h].task == t && before[h].status == GatePending;
            (AnyRejected(gates, t) <==> rejected) && (AllResolved(gates, t) <==> !rejected && !open)
  {
    var gates := before[g := before[g].(status := Approved)];
    assert g in gates && gates[g].task == t;
    if h :| h in before && before[h].task == t && before[h].status == Rejected {
      assert h in gates && gates[h].task == t && gates[h].status.Rejected?;
    }
    if h :| h in before && h != g && before[h].task == t && before[h].status == GatePending {
      assert h in gates && gates[h].task == t && gates[h].status.GatePending?;
    }
  }

  /** Nobody but the owner of a gate or an administrator decides it, and nobody twice. */
  lemma OnlyOwnersDecide(s: Tower, r: RequestId, a: Actor, g: GateId, t: TaskId, approve: bool)
    requires g !in s.gates || s.gates[g].task != t || s.gates[g].status != GatePending
             || (s.gates[g].owner != a.subject && !a.admin)
    ensures Apply(s, ResolveGate(r, a, g, t, approve)) == s
  {
  }

  /** A claimer, or a bypass, attaches a pending gate of its own to a task at work. */
  lemma GateIsAttached(s: Tower, a: Actor, g: GateId, t: TaskId)
    requires g !in s.gates && t in s.tasks
    ensures var s' := Apply(s, CreateGate(a, g, t));
            if s.tasks[t].status in {Claimed, Running, WaitingReview}
               && (a.bypass || s.tasks[t].claimer == Some(a.subjectId))
            then s'.gates == s.gates[g := Gate(t, a.subject, GatePending)] && s'.tasks == s.tasks
            else s' == s
  {
  }

  // ---------- What a gate records over a run ----------

  /** The request decides gate `g`. */
  predicate Decides(s: Tower, step: Step, g: GateId) {
    && step.ResolveGate? && step.gate == g && step.req !in s.inflight
    && g in s.gates && s.gates[g].task == step.task && s.gates[g].status == GatePending
    && (s.gates[g].owner == step.actor.subject || step.actor.admin)
  }

  /** The decisions on gate `g` that a run lets through, in order. */
  function Decisions(s: Tower, steps: seq<Step>, g: GateId): seq<bool>
    decreases |steps|
  {
    if steps == [] then []
    else
      (if Decides(s, steps[0], g) then [steps[0].approve] else []) + Decisions(Apply(s, steps[0]), steps[1..], g)
  }

  predicate Undecided(s: Tower, g: GateId) {
    g in s.gates ==> s.gates[g].status == GatePending
  }

  lemma DecisionStep(s: Tower, step: Step, g: GateId)
    ensures var s' := Apply(s, step);
            if Decides(s, step, g) then
              && g in s'.gates && s'.gates[g].task == s.gates[g].task
              && s'.gates[g].status == if step.approve then Approved else Rejected
            else if g in s.gates then g in s'.gates && s'.gates[g] == s.gates[g]
            else Undecided(s', g)
  {
    if !step.CreateGate? && !step.ResolveGate? {
      hide Apply;
      GatesUntouched(s, step);
    }
  }

  lemma {:induction false} DecidedStays(s: Tower, steps: seq<Step>, g: GateId)
    requires g in s.gates && s.gates[g].status != GatePending
    ensures g in Run(s, steps).gates && Run(s, steps).gates[g] == s.gates[g] && Decisions(s, steps, g) == []
    decreases |steps|
  {
    hide Apply;
    if steps != [] {
      DecisionStep(s, steps[0], g);
      DecidedStays(Apply(s, steps[0]), steps[1..], g);
    }
  }

  /** Over every run a gate is decided at most once, and shows that decision: pending without
      one, approved or rejected as the one request that was let through said. */
  lemma {:induction false} GateShowsDecision(s: Tower, steps: seq<Step>, g: GateId)
    requires Undecided(s, g)
    ensures var decisions := Decisions(s, steps, g);
            var gates := Run(s, steps).gates;
            if decisions == [] then Undecided(Run(s, steps), g)
            else
              && |decisions| == 1 && g in gates
              && gates[g].status == if decisions[0] then Approved else Rejected
    decreases |steps|
  {
    hide Apply, Decides;
    if steps != [] {
      DecisionStep(s, steps[0], g);
      if Decides(s, steps[0], g) {
        DecidedStays(Apply(s, steps[0]), steps[1..], g);
      } else {
        StillUndecided(s, steps[0], g);
        GateShowsDecision(Apply(s, steps[0]), steps[1..], g);
      }
    }
  }

  lemma StillUndecided(s: Tower, step: Step, g: GateId)
    requires Undecided(s, g) && !Decides(s, step, g)
    ensures Undecided(Apply(s, step), g)
  {
    hide Apply, Decides;
    DecisionStep(s, step, g);
  }

  /** In every run from the empty tower a resolution finishes a task only if no decision on any
      of its gates, up to and including this one, was a rejection. */
  lemma RejectedNeverFinishes(steps: seq<Step>, step: Step, t: TaskId, g: GateId)
    requires step.ResolveGate? && var s := Run(EMPTY_TOWER, steps); t in s.tasks && !s.tasks[t].status.Finished?
    requires var s' := Apply(Run(EMPTY_TOWER, steps), step);
             && t in s'.tasks && s'.tasks[t].status.Finished?
             && g in s'.gates && s'.gates[g].task == t
    ensures false !in Decisions(EMPTY_TOWER, steps + [step], g)
  {
    hide Apply, Run, Decides, Decisions;
    var s := Run(EMPTY_TOWER, steps);
    FinishRespectsGates(s, step, t);
    RunConcat(EMPTY_TOWER, steps, [step]);
    RunOne(s, step);
    GateShowsDecision(EMPTY_TOWER, steps + [step], g);
  }
}
