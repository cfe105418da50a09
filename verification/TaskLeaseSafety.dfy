/** What the lease protocol guarantees over every interleaving of requests. */
module TaskLeaseSafety {
  import opened Options
  import opened DependencyGraph
  import opened TaskLeases

  // ---------- A superseded claimer can never act again ----------

  datatype Claim = Claim(lease: Lease, agent: AgentId)

  /** The most recent successful claim of `t`. */
  function LastClaim(log: seq<LogEntry>, t: TaskId): Option<Claim>
    decreases |log|
  {
    if log == [] then None
    else
      var e := log[|log| - 1];
      if e.Issued? && e.task == t then Some(Claim(e.lease, e.agent)) else LastClaim(log[..|log| - 1], t)
  }

  /** A request let through without a bypass comes from the latest claim: it carries the
      identity that claim was made for, or the lease it issued. */
  ghost predicate Justified(before: seq<LogEntry>, e: LogEntry) {
    e.Acted? && !e.bypass ==>
      var c := LastClaim(before, e.task);
      c.Some? && (c.value.agent == e.identity || e.presented == Some(c.value.lease))
  }

  ghost predicate LogJustified(log: seq<LogEntry>) {
    forall k :: 0 <= k < |log| ==> Justified(log[..k], log[k])
  }

  /** Claims are known by distinct leases, all of them recorded as issued. */
  ghost predicate LeasesDistinct(log: seq<LogEntry>, issued: set<Lease>) {
    && (forall k :: 0 <= k < |log| && log[k].Issued? ==> log[k].lease in issued)
    && (forall i, j :: 0 <= i < j < |log| && log[i].Issued? && log[j].Issued? ==> log[i].lease != log[j].lease)
  }

  /** Whatever lease and claimer a row shows are those of its latest claim. */
  ghost predicate RowMatches(row: Task, last: Option<Claim>) {
    && (row.lease.Some? ==> last.Some? && last.value.lease == row.lease.value)
    && (row.claimer.Some? ==> last.Some? && last.value.agent == row.claimer.value)
  }

  ghost predicate RowsMatch(tasks: map<TaskId, Task>, log: seq<LogEntry>) {
    forall t :: t in tasks ==> RowMatches(tasks[t], LastClaim(log, t))
  }

  ghost predicate Safe(s: Tower) {
    RowsMatch(s.tasks, s.log) && LogJustified(s.log) && LeasesDistinct(s.log, s.issued)
  }

  /** No row gains a lease or a claimer. */
  ghost predicate RowsWeaken(tasks: map<TaskId, Task>, tasks': map<TaskId, Task>) {
    && tasks.Keys <= tasks'.Keys
    && forall t :: t in tasks' ==>
         if t in tasks then
           && (tasks'[t].lease == tasks[t].lease || tasks'[t].lease.None?)
           && (tasks'[t].claimer == tasks[t].claimer || tasks'[t].claimer.None?)
         else tasks'[t].lease.None? && tasks'[t].claimer.None?
  }

  ghost predicate IsQuiet(s: Tower, s': Tower) {
    s'.log == s.log && s'.issued == s.issued && RowsWeaken(s.tasks, s'.tasks)
  }

  ghost predicate IsAct(s: Tower, s': Tower) {
    && |s'.log| == |s.log| + 1 && s'.log == s.log + [s'.log[|s.log|]]
    && s'.log[|s.log|].Acted? && Justified(s.log, s'.log[|s.log|])
    && s'.issued == s.issued && RowsWeaken(s.tasks, s'.tasks)
  }

  ghost predicate IsIssue(s: Tower, s': Tower) {
    && |s'.log| == |s.log| + 1 && s'.log == s.log + [s'.log[|s.log|]]
    && var e := s'.log[|s.log|];
       && e.Issued? && Justified(s.log, e) && e.lease !in s.issued && s'.issued == s.issued + {e.lease}
       && e.task in s'.tasks && s'.tasks == s.tasks[e.task := s'.tasks[e.task]]
       && s'.tasks[e.task].lease == Some(e.lease) && s'.tasks[e.task].claimer == Some(e.agent)
  }

  ghost predicate Shaped(s: Tower, s': Tower) {
    IsQuiet(s, s') || IsAct(s, s') || IsIssue(s, s')
  }

  /** Every step weakens rows silently, logs one justified request, or issues one lease. */
  lemma StepShape(s: Tower, step: Step)
    requires RowsMatch(s.tasks, s.log)
    ensures Shaped(s, Apply(s, step))
  {
    hide RowsMatch, Shaped;
    match step {
      case ClaimWrite(_, _) => ClaimWriteShape(s, step);
      case McpClaim(_, _, _, _) => ClaimWriteShape(s, step);
      case Heartbeat(_, _, _) => WorkShape(s, step);
      case AppendProgress(_, _, _, _) => WorkShape(s, step);
      case Complete(_, _, _, _, _) => FinalShape(s, step);
      case Fail(_, _, _, _) => FinalShape(s, step);
      case Block(_, _, _) => OwnerShape(s, step);
      case Unblock(_, _) => OwnerShape(s, step);
      case Cancel(_, _) => OwnerShape(s, step);
      case CreateGate(_, _, _) => GateShape(s, step);
      case ResolveGate(_, _, _, _, _) => GateShape(s, step);
      case Tick(_) => SilentShape(s, step);
      case Insert(_, _, _, _, _, _) => SilentShape(s, step);
      case Retry(_) => SilentShape(s, step);
      case Sweep(_) => SilentShape(s, step);
      case _ => InflightShape(s, step);
    }
  }

  lemma ClaimWriteShape(s: Tower, step: Step)
    requires step.ClaimWrite? || step.McpClaim?
    ensures Shaped(s, Apply(s, step))
  {
  }

  lemma WorkShape(s: Tower, step: Step)
    requires step.Heartbeat? || step.AppendProgress?
    requires RowsMatch(s.tasks, s.log)
    ensures Shaped(s, Apply(s, step))
  {
    hide LastClaim, NextSeq;
  }

  lemma FinalShape(s: Tower, step: Step)
    requires step.Complete? || step.Fail?
    requires RowsMatch(s.tasks, s.log)
    ensures Shaped(s, Apply(s, step))
  {
    hide LastClaim, HasPendingGate;
  }

  lemma OwnerShape(s: Tower, step: Step)
    requires step.Block? || step.Unblock? || step.Cancel?
    requires RowsMatch(s.tasks, s.log)
    ensures Shaped(s, Apply(s, step))
  {
    hide LastClaim, IsIssue;
  }

  lemma GateShape(s: Tower, step: Step)
    requires step.CreateGate? || step.ResolveGate?
    requires RowsMatch(s.tasks, s.log)
    ensures Shaped(s, Apply(s, step))
  {
    hide AnyRejected, AllResolved, LastClaim;
  }

  lemma SilentShape(s: Tower, step: Step)
    requires step.Tick? || step.Insert? || step.Retry? || step.Sweep?
    ensures Shaped(s, Apply(s, step))
  {
    hide Sweepable;
  }

  lemma InflightShape(s: Tower, step: Step)
    requires step.ClaimFetch? || step.DispatchFetch? || step.DispatchWrite?
          || step.UnblockSelect? || step.UnblockCheck? || step.UnblockWrite?
    ensures Shaped(s, Apply(s, step))
  {
    hide DepsFinished, Waits;
  }

  lemma ShapeKeepsSafe(s: Tower, s': Tower)
    requires Safe(s) && Shaped(s, s')
    ensures Safe(s')
  {
    hide LogJustified, Justified, RowsWeaken, LastClaim;
    if IsQuiet(s, s') {
      FreshRowsUnclaimed(s, s');
    } else {
      ExtendLogJustified(s.log, s'.log);
      if IsAct(s, s') {
        ActKeepsRows(s, s');
      } else {
        IssueKeepsRows(s, s');
      }
    }
  }

  lemma ExtendLogJustified(log: seq<LogEntry>, log': seq<LogEntry>)
    requires LogJustified(log) && |log'| == |log| + 1 && log' == log + [log'[|log|]]
    requires Justified(log, log'[|log|])
    ensures LogJustified(log')
  {
    hide Justified;
    forall k | 0 <= k < |log'|
      ensures Justified(log'[..k], log'[k])
    {
      if k < |log| {
        assert log'[..k] == log[..k];
        assert Justified(log[..k], log[k]);
      } else {
        assert log'[..k] == log;
      }
    }
  }

  lemma ActKeepsRows(s: Tower, s': Tower)
    requires RowsMatch(s.tasks, s.log) && IsAct(s, s')
    ensures RowsMatch(s'.tasks, s'.log)
  {
    assert s'.log[..|s.log|] == s.log;
    forall t | t in s'.tasks
      ensures RowMatches(s'.tasks[t], LastClaim(s'.log, t))
    {
      if t in s.tasks {
        assert RowMatches(s.tasks[t], LastClaim(s.log, t));
      }
    }
  }

  lemma IssueKeepsRows(s: Tower, s': Tower)
    requires RowsMatch(s.tasks, s.log) && IsIssue(s, s')
    ensures RowsMatch(s'.tasks, s'.log)
  {
    assert s'.log[..|s.log|] == s.log;
    var e := s'.log[|s.log|];
    forall t | t in s'.tasks
      ensures RowMatches(s'.tasks[t], LastClaim(s'.log, t))
    {
      if t != e.task {
        assert t in s.tasks && RowMatches(s.tasks[t], LastClaim(s.log, t));
      }
    }
  }

  lemma FreshRowsUnclaimed(s: Tower, s': Tower)
    requires RowsMatch(s.tasks, s.log) && IsQuiet(s, s')
    ensures RowsMatch(s'.tasks, s'.log)
  {
    hide LastClaim;
    forall t | t in s'.tasks
      ensures RowMatches(s'.tasks[t], LastClaim(s'.log, t))
    {
      if t in s.tasks {
        assert RowMatches(s.tasks[t], LastClaim(s.log, t));
      }
    }
  }

  lemma {:induction false} RunIsSafe(s: Tower, steps: seq<Step>)
    requires Safe(s)
    ensures Safe(Run(s, steps))
    decreases |steps|
  {
    hide Safe, Apply;
    if steps != [] {
      StepIsSafe(s, steps[0]);
      RunIsSafe(Apply(s, steps[0]), steps[1..]);
    }
  }

  lemma StepIsSafe(s: Tower, step: Step)
    requires Safe(s)
    ensures Safe(Apply(s, step))
  {
    hide Apply;
    StepShape(s, step);
    ShapeKeepsSafe(s, Apply(s, step));
  }

  /** Where the latest claim stands in the log. */
  lemma {:induction false} LastClaimAt(log: seq<LogEntry>, t: TaskId) returns (i: nat)
    requires LastClaim(log, t).Some?
    ensures i < |log| && log[i].Issued? && log[i].task == t
    ensures LastClaim(log, t) == Some(Claim(log[i].lease, log[i].agent))
    ensures forall j :: i < j < |log| ==> !(log[j].Issued? && log[j].task == t)
  {
    i := |log| - 1;
    if !(log[i].Issued? && log[i].task == t) {
      ghost var front := log[..|log| - 1];
      i := LastClaimAt(front, t);
      assert forall j :: i < j < |front| ==> log[j] == front[j];
    }
  }

  /** Main fencing theorem. In every run, each request let through without a bypass was
      made by the winner of some claim of that task, or under the lease it issued, and no
      other claim of that task succeeded in between. */
  lemma NoSupersededClaimer(steps: seq<Step>, k: nat)
    requires var log := Run(EMPTY_TOWER, steps).log; k < |log| && log[k].Acted? && !log[k].bypass
    ensures var log := Run(EMPTY_TOWER, steps).log;
            var e := log[k];
            exists i :: 0 <= i < k && log[i].Issued? && log[i].task == e.task
                     && (log[i].agent == e.identity || e.presented == Some(log[i].lease))
                     && forall j :: i < j < k ==> !(log[j].Issued? && log[j].task == e.task)
  {
    hide Run;
    RunIsSafe(EMPTY_TOWER, steps);
    var log := Run(EMPTY_TOWER, steps).log;
    var before := log[..k];
    assert Justified(before, log[k]);
    var i := LastClaimAt(before, log[k].task);
    assert log[i] == before[i];
    assert forall j :: i < j < k ==> log[j] == before[j];
  }

  /** A lease that has stopped being current never becomes current again. */
  lemma {:induction false} DeadLeaseStaysDead(s: Tower, steps: seq<Step>, t: TaskId, lease: Lease)
    requires Safe(s) && t in s.tasks && lease in s.issued && s.tasks[t].lease != Some(lease)
    ensures var s' := Run(s, steps); t in s'.tasks && s'.tasks[t].lease != Some(lease)
    decreases |steps|
  {
    hide Apply, Safe;
    if steps != [] {
      StepIsSafe(s, steps[0]);
      DeadLeaseStep(s, steps[0], t, lease);
      DeadLeaseStaysDead(Apply(s, steps[0]), steps[1..], t, lease);
    }
  }

  lemma DeadLeaseStep(s: Tower, step: Step, t: TaskId, lease: Lease)
    requires Safe(s) && t in s.tasks && lease in s.issued && s.tasks[t].lease != Some(lease)
    ensures var s' := Apply(s, step); t in s'.tasks && lease in s'.issued && s'.tasks[t].lease != Some(lease)
  {
    hide Apply, LastClaim, Justified;
    StepShape(s, step);
  }
}
