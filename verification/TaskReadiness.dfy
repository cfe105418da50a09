/** Dependencies over whole runs: the graph stays acyclic, and no scan readies a task that lists
    one twice. */
module TaskReadiness {
  import opened Options
  import opened DependencyGraph
  import opened TaskLeases
  import opened TaskLifecycle
  import opened TaskClaims

  // ---------- The dependency graph of a tower ----------

  function GraphOf(s: Tower): Graph {
    map t | t in s.tasks :: s.tasks[t].dependsOn
  }

  lemma InsertExtendsGraph(s: Tower, step: Step)
    requires DepsExist(s) && Acyclic(GraphOf(s)) && step.Insert?
    ensures Acyclic(GraphOf(Apply(s, step)))
  {
    hide Acyclic;
    var s' := Apply(s, step);
    if s' != s {
      assert GraphOf(s') == GraphOf(s)[step.id := step.deps];
      InsertKeepsAcyclic(GraphOf(s), step.id, step.deps);
    }
  }

  lemma SweepKeepsGraph(s: Tower, m: MissionId)
    ensures GraphOf(Apply(s, Sweep(m))) == GraphOf(s)
  {
  }

  lemma GraphUnchanged(s: Tower, step: Step)
    requires !step.Insert?
    ensures GraphOf(Apply(s, step)) == GraphOf(s)
  {
    hide Apply;
    if step.Sweep? {
      SweepKeepsGraph(s, step.mission);
    } else {
      var s' := Apply(s, step);
      forall t
        ensures t in s'.tasks <==> t in s.tasks
        ensures t in s.tasks ==> s'.tasks[t].dependsOn == s.tasks[t].dependsOn
      {
        PlainRow(s, step, t);
      }
      assert s'.tasks.Keys == s.tasks.Keys;
    }
  }

  /** In every run, whatever inserts race, no task depends on itself through others. */
  lemma {:induction false} RunIsAcyclic(s: Tower, steps: seq<Step>)
    requires DepsExist(s) && Acyclic(GraphOf(s))
    ensures DepsExist(Run(s, steps)) && Acyclic(GraphOf(Run(s, steps)))
    decreases |steps|
  {
    hide Apply, DepsExist, Acyclic, GraphOf;
    if steps != [] {
      DepsExistStep(s, steps[0]);
      if steps[0].Insert? {
        InsertExtendsGraph(s, steps[0]);
      } else {
        GraphUnchanged(s, steps[0]);
      }
      RunIsAcyclic(Apply(s, steps[0]), steps[1..]);
    }
  }

  lemma EmptyIsAcyclic()
    ensures DepsExist(EMPTY_TOWER) && Acyclic(GraphOf(EMPTY_TOWER))
  {
    var g := GraphOf(EMPTY_TOWER);
    forall w | Walk(g, w)
      ensures !Repeats(w)
    {
      assert |w| > 1 ==> w[1] in Deps(g, w[0]);
    }
  }

  /** So it is from the empty tower on. */
  lemma AlwaysAcyclic(steps: seq<Step>)
    ensures DepsExist(Run(EMPTY_TOWER, steps)) && Acyclic(GraphOf(Run(EMPTY_TOWER, steps)))
  {
    hide DepsExist, Acyclic, Run;
    EmptyIsAcyclic();
    RunIsAcyclic(EMPTY_TOWER, steps);
  }

  // ---------- A dependency listed twice ----------

  /** A scan is armed only for tasks that list no dependency twice. */
  ghost predicate ArmedDistinct(s: Tower) {
    forall r :: r in s.inflight && s.inflight[r].UnblockArmed? ==>
      s.inflight[r].task in s.tasks && NoDuplicates(s.tasks[s.inflight[r].task].dependsOn)
  }

  lemma ArmedDistinctStep(s: Tower, step: Step)
    requires DepsExist(s) && ArmedDistinct(s)
    ensures ArmedDistinct(Apply(s, step))
  {
    hide Apply, DepsFinished, NoDuplicates;
    StepRows(s, step);
    StepInflight(s, step);
    forall r | r in Apply(s, step).inflight && Apply(s, step).inflight[r].UnblockArmed?
      ensures Apply(s, step).inflight[r].task in s.tasks
      ensures NoDuplicates(s.tasks[Apply(s, step).inflight[r].task].dependsOn)
    {
      assert Follows(s, InflightOf(s, r), Apply(s, step).inflight[r]);
      if InflightOf(s, r) != Some(Apply(s, step).inflight[r]) {
        DepsFinishedIffDistinct(s.tasks, s.tasks[Apply(s, step).inflight[r].task].dependsOn);
      }
    }
  }

  lemma {:induction false} ArmedDistinctInRuns(s: Tower, steps: seq<Step>)
    requires DepsExist(s) && ArmedDistinct(s)
    ensures DepsExist(Run(s, steps)) && ArmedDistinct(Run(s, steps))
    decreases |steps|
  {
    hide Apply, DepsExist, ArmedDistinct;
    if steps != [] {
      DepsExistStep(s, steps[0]);
      ArmedDistinctStep(s, steps[0]);
      ArmedDistinctInRuns(Apply(s, steps[0]), steps[1..]);
    }
  }

  /** In no run does a scan for dependents write a task that lists a dependency twice. */
  lemma DuplicateIsNeverReadied(steps: seq<Step>, r: RequestId, t: TaskId)
    requires var s := Run(EMPTY_TOWER, steps); t in s.tasks && !NoDuplicates(s.tasks[t].dependsOn)
    ensures var s := Run(EMPTY_TOWER, steps);
            t in Apply(s, UnblockWrite(r)).tasks && Apply(s, UnblockWrite(r)).tasks[t] == s.tasks[t]
  {
    hide Run, NoDuplicates;
    ArmedDistinctInRuns(EMPTY_TOWER, steps);
  }
}
