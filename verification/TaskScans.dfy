/** What the scans for dependents in flight make of a waiting task: in some order of their
    statements, and in every order. */
module TaskScans {
  import opened Options
  import opened DependencyGraph
  import opened TaskLeases
  import opened TaskLifecycle
  import opened TaskClaims

  // ---------- Some order ----------

  /** A scan in flight that will find `t`, and find its dependencies still finished. */
  ghost predicate Wakes(p: Inflight, t: TaskId, row: Task) {
    match p
    case UnblockStart(m, done) => Waits(row, m, done)
    case UnblockScan(todo) => t in todo
    case UnblockArmed(u, todo) => u == t || (t in todo && u !in row.dependsOn)
    case _ => false
  }

  ghost predicate Woken(s: Tower, t: TaskId)
    requires t in s.tasks
  {
    exists r :: r in s.inflight && Wakes(s.inflight[r], t, s.tasks[t])
  }

  predicate IsScan(step: Step) {
    step.UnblockSelect? || step.UnblockCheck? || step.UnblockWrite?
  }

  ghost predicate AllScans(steps: seq<Step>) {
    forall i :: 0 <= i < |steps| ==> IsScan(steps[i])
  }

  /** Nothing in flight can ready the waiting task `t`. */
  ghost predicate Asleep(s: Tower, t: TaskId, row: Task) {
    && t in s.tasks && s.tasks[t] == row && row.status.Pending?
    && (forall r :: r in s.inflight && s.inflight[r].UnblockArmed? ==> s.inflight[r].task != t)
    && (DepsFinished(s.tasks, row.dependsOn) ==> forall r :: r in s.inflight ==> !Wakes(s.inflight[r], t, row))
  }

  lemma FinishedDepsOnlyFall(s: Tower, step: Step, row: Task)
    requires IsScan(step) && forall d :: d in row.dependsOn ==> d in s.tasks
    ensures DepsFinished(Apply(s, step).tasks, row.dependsOn) ==> DepsFinished(s.tasks, row.dependsOn)
    ensures (&& step.UnblockWrite? && step.req in s.inflight && s.inflight[step.req].UnblockArmed?
             && s.inflight[step.req].task in row.dependsOn) ==>
              !DepsFinished(Apply(s, step).tasks, row.dependsOn)
  {
    hide DepsFinished, NoDuplicates, Waits;
    DepsFinishedIffDistinct(s.tasks, row.dependsOn);
    DepsFinishedIffDistinct(Apply(s, step).tasks, row.dependsOn);
  }

  lemma AsleepStep(s: Tower, step: Step, t: TaskId, row: Task)
    requires Asleep(s, t, row) && IsScan(step) && DepsExist(s)
    ensures Asleep(Apply(s, step), t, row)
  {
    hide DepsFinished, Waits;
    FinishedDepsOnlyFall(s, step, row);
  }

  lemma {:induction false} AsleepRun(s: Tower, steps: seq<Step>, t: TaskId, row: Task)
    requires Asleep(s, t, row) && AllScans(steps) && DepsExist(s)
    ensures Asleep(Run(s, steps), t, row)
    decreases |steps|
  {
    hide Apply, Asleep, DepsExist;
    if steps != [] {
      assert IsScan(steps[0]);
      AsleepStep(s, steps[0], t, row);
      DepsExistStep(s, steps[0]);
      AsleepRun(Apply(s, steps[0]), steps[1..], t, row);
    }
  }

  lemma SelectHolds(s: Tower, t: TaskId, r: RequestId)
    requires t in s.tasks && r in s.inflight && s.inflight[r].UnblockStart? && Wakes(s.inflight[r], t, s.tasks[t])
    requires s.tasks[t].status.Pending?
    ensures var s1 := Apply(s, UnblockSelect(r));
            s1.tasks == s.tasks && r in s1.inflight && s1.inflight[r].UnblockScan? && t in s1.inflight[r].todo
  {
  }

  lemma WriteHolds(s: Tower, t: TaskId, r: RequestId)
    requires t in s.tasks && r in s.inflight && s.inflight[r].UnblockArmed?
    ensures var s1 := Apply(s, UnblockWrite(r));
            && (s.inflight[r].task == t ==> IsReady(s1, t))
            && (s.inflight[r].task != t ==> t in s1.tasks && s1.tasks[t] == s.tasks[t])
            && r in s1.inflight && s1.inflight[r] == UnblockScan(s.inflight[r].todo)
  {
  }

  /** A scan that holds the task readies it. */
  lemma WokenRun(s: Tower, t: TaskId, r: RequestId) returns (steps: seq<Step>)
    requires t in s.tasks && s.tasks[t].status.Pending? && DepsFinished(s.tasks, s.tasks[t].dependsOn) && DepsExist(s)
    requires r in s.inflight && Wakes(s.inflight[r], t, s.tasks[t])
    ensures AllScans(steps) && IsReady(Run(s, steps), t)
  {
    hide DepsFinished, Apply, IsReady, Waits, Run;
    match s.inflight[r] {
      case UnblockStart(_, _) =>
        SelectHolds(s, t, r);
        CheckThenWrite(Apply(s, UnblockSelect(r)), t, r);
        steps := [UnblockSelect(r), UnblockCheck(r, t), UnblockWrite(r)];
        RunThree(s, steps);
      case UnblockScan(_) =>
        CheckThenWrite(s, t, r);
        steps := [UnblockCheck(r, t), UnblockWrite(r)];
        RunTwo(s, steps);
        RunNone(Apply(Apply(s, steps[0]), steps[1]), steps[2..]);
      case UnblockArmed(u, _) =>
        WriteHolds(s, t, r);
        if u == t {
          steps := [UnblockWrite(r)];
          RunOne(s, steps[0]);
        } else {
          OtherWriteKeepsDeps(s, r, s.tasks[t]);
          CheckThenWrite(Apply(s, UnblockWrite(r)), t, r);
          steps := [UnblockWrite(r), UnblockCheck(r, t), UnblockWrite(r)];
          RunThree(s, steps);
        }
    }
  }

  lemma OtherWriteKeepsDeps(s: Tower, r: RequestId, row: Task)
    requires r in s.inflight && s.inflight[r].UnblockArmed? && s.inflight[r].task !in row.dependsOn
    requires forall d :: d in row.dependsOn ==> d in s.tasks
    requires DepsFinished(s.tasks, row.dependsOn)
    ensures DepsFinished(Apply(s, UnblockWrite(r)).tasks, row.dependsOn)
  {
    hide DepsFinished, NoDuplicates;
    DepsFinishedIffDistinct(s.tasks, row.dependsOn);
    DepsFinishedIffDistinct(Apply(s, UnblockWrite(r)).tasks, row.dependsOn);
  }

  /** A pending task whose dependencies are all finished can be readied by the scans in
      flight if and only if one of them is about to write it, or has still to look at it and is
      not about to reopen a dependency. */
  lemma SomeOrderReadiesIff(s: Tower, t: TaskId)
    requires DepsExist(s) && t in s.tasks && s.tasks[t].status.Pending?
    requires DepsFinished(s.tasks, s.tasks[t].dependsOn)
    ensures (exists steps :: AllScans(steps) && IsReady(Run(s, steps), t)) <==> Woken(s, t)
  {
    hide DepsFinished, DepsExist, AllScans;
    if Woken(s, t) {
      var r :| r in s.inflight && Wakes(s.inflight[r], t, s.tasks[t]);
      var steps := WokenRun(s, t, r);
      assert AllScans(steps) && IsReady(Run(s, steps), t);
    } else {
      assert Asleep(s, t, s.tasks[t]);
      forall steps | AllScans(steps)
        ensures !IsReady(Run(s, steps), t)
      {
        AsleepRun(s, steps, t, s.tasks[t]);
      }
    }
  }

  // ---------- Every order ----------

  /** A scan that may still look at `t`, or is about to write it. */
  predicate Attends(p: Inflight, t: TaskId, row: Task) {
    match p
    case UnblockStart(m, done) => Waits(row, m, done)
    case UnblockScan(todo) => t in todo
    case UnblockArmed(u, todo) => u == t || t in todo
    case _ => false
  }

  ghost predicate Attended(s: Tower, t: TaskId, row: Task) {
    exists r :: r in s.inflight && Attends(s.inflight[r], t, row)
  }

  ghost predicate ArmedFor(s: Tower, t: TaskId) {
    exists r :: r in s.inflight && s.inflight[r].UnblockArmed? && s.inflight[r].task == t
  }

  /** A scan that can write 'ready' to the finished task `d`. */
  predicate Reopens(tasks: map<TaskId, Task>, p: Inflight, d: TaskId)
    requires d in tasks
  {
    match p
    case UnblockScan(todo) => d in todo && DepsFinished(tasks, tasks[d].dependsOn)
    case UnblockArmed(u, todo) =>
      u == d || (d in todo && u !in tasks[d].dependsOn && DepsFinished(tasks, tasks[d].dependsOn))
    case _ => false
  }

  ghost predicate Reopenable(s: Tower, deps: seq<TaskId>) {
    exists r, d :: r in s.inflight && d in deps && d in s.tasks && Reopens(s.tasks, s.inflight[r], d)
  }

  /** Pending although every dependency is finished. */
  predicate Due(s: Tower, t: TaskId) {
    t in s.tasks && s.tasks[t].status.Pending? && DepsFinished(s.tasks, s.tasks[t].dependsOn)
  }

  /** The scan has nothing left to do. */
  predicate Idle(p: Inflight) {
    !p.UnblockStart? && !p.UnblockArmed? && (p.UnblockScan? ==> p.todo == {})
  }

  ghost predicate Drained(s: Tower) {
    forall r :: r in s.inflight ==> Idle(s.inflight[r])
  }

  /** Scans select tasks that exist, and rows are never deleted. */
  predicate TodoExists(tasks: map<TaskId, Task>, p: Inflight) {
    match p
    case UnblockScan(todo) => todo <= tasks.Keys
    case UnblockArmed(u, todo) => u in tasks && todo <= tasks.Keys
    case _ => true
  }

  ghost predicate TodosExist(s: Tower) {
    forall r :: r in s.inflight ==> TodoExists(s.tasks, s.inflight[r])
  }

  lemma TodosExistStep(s: Tower, step: Step)
    requires TodosExist(s)
    ensures TodosExist(Apply(s, step))
  {
    hide Apply, DepsFinished;
    StepRows(s, step);
    StepInflight(s, step);
    forall r | r in Apply(s, step).inflight
      ensures TodoExists(Apply(s, step).tasks, Apply(s, step).inflight[r])
    {
      assert Follows(s, InflightOf(s, r), Apply(s, step).inflight[r]);
    }
  }

  // ---------- Every scan can be run to its end ----------

  /** Only request `r` moved on, and no row was added. */
  ghost predicate OnlyMoves(s: Tower, s': Tower, r: RequestId) {
    && s'.inflight.Keys == s.inflight.Keys && s'.tasks.Keys == s.tasks.Keys
    && forall q :: q in s.inflight && q != r ==> s'.inflight[q] == s.inflight[q]
  }

  lemma CheckMoves(s: Tower, r: RequestId, c: TaskId)
    requires r in s.inflight && s.inflight[r].UnblockScan? && c in s.inflight[r].todo && c in s.tasks
    ensures var s' := Apply(s, UnblockCheck(r, c));
            var rest := s.inflight[r].todo - {c};
            OnlyMoves(s, s', r) && s'.inflight[r] in {UnblockArmed(c, rest), UnblockScan(rest)}
  {
    hide DepsFinished;
  }

  lemma WriteMoves(s: Tower, r: RequestId)
    requires r in s.inflight && s.inflight[r].UnblockArmed? && s.inflight[r].task in s.tasks
    ensures var s' := Apply(s, UnblockWrite(r));
            OnlyMoves(s, s', r) && s'.inflight[r] == UnblockScan(s.inflight[r].todo)
  {
  }

  lemma SelectMoves(s: Tower, r: RequestId)
    requires r in s.inflight && s.inflight[r].UnblockStart?
    ensures var s' := Apply(s, UnblockSelect(r));
            OnlyMoves(s, s', r) && s'.inflight[r].UnblockScan? && s'.inflight[r].todo <= s'.tasks.Keys
  {
  }

  lemma ScanThen(s: Tower, step: Step, more: seq<Step>)
    requires IsScan(step) && AllScans(more)
    ensures AllScans([step] + more) && Run(s, [step] + more) == Run(Apply(s, step), more)
  {
    hide Apply;
    assert ([step] + more)[1..] == more;
  }

  lemma NoScans()
    ensures AllScans([])
  {
  }

  lemma {:induction false} DrainScan(s: Tower, r: RequestId) returns (steps: seq<Step>)
    requires r in s.inflight && s.inflight[r].UnblockScan? && s.inflight[r].todo <= s.tasks.Keys
    ensures AllScans(steps) && OnlyMoves(s, Run(s, steps), r) && Idle(Run(s, steps).inflight[r])
    decreases s.inflight[r].todo
  {
    hide Apply, AllScans;
    NoScans();
    steps := [];
    if s.inflight[r].todo != {} {
      var c :| c in s.inflight[r].todo;
      CheckMoves(s, r, c);
      var s1 := Apply(s, UnblockCheck(r, c));
      if s1.inflight[r].UnblockArmed? {
        WriteMoves(s1, r);
        steps := DrainScan(Apply(s1, UnblockWrite(r)), r);
        ScanThen(s1, UnblockWrite(r), steps);
        steps := [UnblockWrite(r)] + steps;
      } else {
        steps := DrainScan(s1, r);
      }
      ScanThen(s, UnblockCheck(r, c), steps);
      steps := [UnblockCheck(r, c)] + steps;
    }
  }

  lemma DrainOne(s: Tower, r: RequestId) returns (steps: seq<Step>)
    requires r in s.inflight && TodoExists(s.tasks, s.inflight[r])
    ensures AllScans(steps) && OnlyMoves(s, Run(s, steps), r) && Idle(Run(s, steps).inflight[r])
  {
    hide Apply, AllScans;
    NoScans();
    steps := [];
    match s.inflight[r] {
      case UnblockStart(_, _) =>
        SelectMoves(s, r);
        steps := DrainScan(Apply(s, UnblockSelect(r)), r);
        ScanThen(s, UnblockSelect(r), steps);
        steps := [UnblockSelect(r)] + steps;
      case UnblockScan(_) =>
        steps := DrainScan(s, r);
      case UnblockArmed(_, _) =>
        WriteMoves(s, r);
        steps := DrainScan(Apply(s, UnblockWrite(r)), r);
        ScanThen(s, UnblockWrite(r), steps);
        steps := [UnblockWrite(r)] + steps;
      case _ =>
    }
  }

  lemma ScansConcat(s: Tower, a: seq<Step>, b: seq<Step>)
    requires AllScans(a) && AllScans(b)
    ensures AllScans(a + b) && Run(s, a + b) == Run(Run(s, a), b)
  {
    hide Apply;
    RunConcat(s, a, b);
  }

  /** From every reachable state the scans in flight can be run to their end. */
  lemma {:induction false} DrainAll(s: Tower, left: set<RequestId>) returns (steps: seq<Step>)
    requires TodosExist(s) && forall r :: r in s.inflight && r !in left ==> Idle(s.inflight[r])
    ensures AllScans(steps) && Drained(Run(s, steps))
    decreases left
  {
    hide Apply, AllScans;
    if left == {} {
      NoScans();
      steps := [];
    } else {
      var r :| r in left;
      if r in s.inflight {
        var first := DrainOne(s, r);
        assert OnlyMoves(s, Run(s, first), r);
        var rest := DrainAll(Run(s, first), left - {r});
        ScansConcat(s, first, rest);
        steps := first + rest;
      } else {
        steps := DrainAll(s, left - {r});
      }
    }
  }

  // ---------- When every order readies the task ----------

  /** Whatever order the scans take, `t` is or will be ready. */
  ghost predicate Secured(s: Tower, t: TaskId) {
    t in s.tasks && (IsReady(s, t) || ArmedFor(s, t)
                     || (Due(s, t) && Attended(s, t, s.tasks[t]) && !Reopenable(s, s.tasks[t].dependsOn)))
  }

  /** The written row is the only one a scan changes, and it becomes ready. */
  lemma ScanRows(s: Tower, step: Step, u: TaskId)
    requires IsScan(step) && u in s.tasks
    ensures var s' := Apply(s, step);
            && u in s'.tasks && s'.tasks[u] in {s.tasks[u], s.tasks[u].(status := Ready)}
            && (s'.tasks[u] != s.tasks[u] ==>
                  step.UnblockWrite? && step.req in s.inflight && s.inflight[step.req].UnblockArmed?
                  && s.inflight[step.req].task == u)
  {
  }

  lemma ArmedStaysSecured(s: Tower, step: Step, t: TaskId)
    requires IsScan(step) && t in s.tasks && (IsReady(s, t) || ArmedFor(s, t))
    ensures Secured(Apply(s, step), t)
  {
    hide Reopenable, Attended, Due, DepsFinished, Waits;
    ScanRows(s, step, t);
    if !IsReady(s, t) {
      var r :| r in s.inflight && s.inflight[r].UnblockArmed? && s.inflight[r].task == t;
      var s' := Apply(s, step);
      if step.req != r {
        assert r in s'.inflight && s'.inflight[r] == s.inflight[r];
      }
    }
  }

  lemma DepsStayFinished(s: Tower, step: Step, deps: seq<TaskId>)
    requires IsScan(step) && DepsFinished(s.tasks, deps) && !Reopenable(s, deps)
    requires forall d :: d in deps ==> d in s.tasks
    ensures DepsFinished(Apply(s, step).tasks, deps)
  {
    hide DepsFinished, NoDuplicates, Apply;
    forall d | d in deps
      ensures d in Apply(s, step).tasks && Apply(s, step).tasks[d].status == s.tasks[d].status
    {
      ScanRows(s, step, d);
      if Apply(s, step).tasks[d] != s.tasks[d] {
        assert false;
      }
    }
    DepsFinishedIffDistinct(s.tasks, deps);
    DepsFinishedIffDistinct(Apply(s, step).tasks, deps);
  }

  lemma StaysClosed(s: Tower, step: Step, deps: seq<TaskId>)
    requires IsScan(step) && DepsExist(s) && DepsFinished(s.tasks, deps) && !Reopenable(s, deps)
    requires forall d :: d in deps ==> d in s.tasks
    ensures !Reopenable(Apply(s, step), deps)
  {
    hide DepsFinished, NoDuplicates, Apply, Waits;
    var s' := Apply(s, step);
    DepsFinishedIffDistinct(s.tasks, deps);
    forall r, d | r in s'.inflight && d in deps && d in s'.tasks
      ensures !Reopens(s'.tasks, s'.inflight[r], d)
    {
      ScanRows(s, step, d);
      FinishedDepsOnlyFall(s, step, s.tasks[d]);
      StaysClosedAt(s, step, r, d);
    }
  }

  lemma StaysClosedAt(s: Tower, step: Step, r: RequestId, d: TaskId)
    requires IsScan(step) && d in s.tasks && s.tasks[d].status.Finished? && r in Apply(s, step).inflight
    requires forall e :: e in s.tasks[d].dependsOn ==> e in s.tasks
    requires r in s.inflight ==> !Reopens(s.tasks, s.inflight[r], d)
    requires d in Apply(s, step).tasks
    ensures !Reopens(Apply(s, step).tasks, Apply(s, step).inflight[r], d)
  {
    hide DepsFinished;
    ScanRows(s, step, d);
    FinishedDepsOnlyFall(s, step, s.tasks[d]);
  }

  lemma AttendedStep(s: Tower, step: Step, t: TaskId)
    requires IsScan(step) && Due(s, t) && Attended(s, t, s.tasks[t])
    ensures IsReady(Apply(s, step), t) || Attended(Apply(s, step), t, s.tasks[t])
  {
    hide DepsFinished;
    var r :| r in s.inflight && Attends(s.inflight[r], t, s.tasks[t]);
    var s' := Apply(s, step);
    if r in s'.inflight && Attends(s'.inflight[r], t, s.tasks[t]) {
    } else {
      assert step.req == r;
    }
  }

  lemma SecuredStep(s: Tower, step: Step, t: TaskId)
    requires IsScan(step) && DepsExist(s) && Secured(s, t)
    ensures Secured(Apply(s, step), t)
  {
    hide Apply, DepsFinished, Reopenable, Attended;
    if IsReady(s, t) || ArmedFor(s, t) {
      ArmedStaysSecured(s, step, t);
    } else {
      ScanRows(s, step, t);
      AttendedStep(s, step, t);
      DepsStayFinished(s, step, s.tasks[t].dependsOn);
      StaysClosed(s, step, s.tasks[t].dependsOn);
    }
  }

  lemma {:induction false} SecuredRun(s: Tower, steps: seq<Step>, t: TaskId)
    requires AllScans(steps) && DepsExist(s) && Secured(s, t)
    ensures Secured(Run(s, steps), t)
    decreases |steps|
  {
    hide Apply, DepsExist, Secured;
    if steps != [] {
      assert IsScan(steps[0]);
      SecuredStep(s, steps[0], t);
      DepsExistStep(s, steps[0]);
      SecuredRun(Apply(s, steps[0]), steps[1..], t);
    }
  }

  lemma DrainedIsReady(s: Tower, t: TaskId)
    requires Drained(s) && Secured(s, t)
    ensures IsReady(s, t)
  {
  }

  // ---------- When some order leaves it waiting ----------

  lemma WriteExact(s: Tower, r: RequestId)
    requires r in s.inflight && s.inflight[r].UnblockArmed? && s.inflight[r].task in s.tasks
    ensures var UnblockArmed(u, todo) := s.inflight[r];
            Apply(s, UnblockWrite(r))
              == s.(tasks := s.tasks[u := s.tasks[u].(status := Ready)], inflight := s.inflight[r := UnblockScan(todo)])
  {
  }

  lemma CheckExact(s: Tower, r: RequestId, d: TaskId)
    requires r in s.inflight && s.inflight[r].UnblockScan? && d in s.inflight[r].todo && d in s.tasks
    requires DepsFinished(s.tasks, s.tasks[d].dependsOn)
    ensures Apply(s, UnblockCheck(r, d))
              == s.(inflight := s.inflight[r := UnblockArmed(d, s.inflight[r].todo - {d})])
  {
    hide DepsFinished;
  }

  lemma ReadyDepSleeps(s: Tower, t: TaskId, d: TaskId)
    requires t in s.tasks && s.tasks[t].status.Pending? && !ArmedFor(s, t)
    requires forall e :: e in s.tasks[t].dependsOn ==> e in s.tasks
    requires d in s.tasks[t].dependsOn && s.tasks[d].status.Ready?
    ensures Asleep(s, t, s.tasks[t])
  {
    hide DepsFinished, NoDuplicates;
    DepsFinishedIffDistinct(s.tasks, s.tasks[t].dependsOn);
  }

  /** A scan that can reopen a dependency may do so before any looks at `t`. */
  lemma ReopenFirst(s: Tower, t: TaskId) returns (steps: seq<Step>)
    requires DepsExist(s) && TodosExist(s)
    requires Due(s, t) && !ArmedFor(s, t) && Reopenable(s, s.tasks[t].dependsOn)
    ensures AllScans(steps) && Asleep(Run(s, steps), t, s.tasks[t])
  {
    hide Apply, DepsFinished, Asleep, Run, DepsExist;
    var r, d :| r in s.inflight && d in s.tasks[t].dependsOn && d in s.tasks && Reopens(s.tasks, s.inflight[r], d);
    assert s.tasks[d].status.Finished? by { DueDepFinished(s, t, d); }
    if s.inflight[r].UnblockArmed? {
      assert TodoExists(s.tasks, s.inflight[r]);
      WriteExact(s, r);
      var s1 := Apply(s, UnblockWrite(r));
      if s.inflight[r].task == d {
        steps := [UnblockWrite(r)];
        RunOne(s, UnblockWrite(r));
        ReopenedSleeps(s, s1, t, d, r);
      } else {
        ExistingDeps(s, d);
        OtherWriteKeepsDeps(s, r, s.tasks[d]);
        CheckExact(s1, r, d);
        var s2 := Apply(s1, UnblockCheck(r, d));
        WriteExact(s2, r);
        steps := [UnblockWrite(r), UnblockCheck(r, d), UnblockWrite(r)];
        RunThree(s, steps);
        ReopenedSleeps(s, Apply(s2, UnblockWrite(r)), t, d, r);
      }
    } else {
      CheckExact(s, r, d);
      var s1 := Apply(s, UnblockCheck(r, d));
      WriteExact(s1, r);
      steps := [UnblockCheck(r, d), UnblockWrite(r)];
      RunTwo(s, steps);
      RunNone(Apply(s1, UnblockWrite(r)), steps[2..]);
      ReopenedSleeps(s, Apply(s1, UnblockWrite(r)), t, d, r);
    }
  }

  lemma ExistingDeps(s: Tower, d: TaskId)
    requires DepsExist(s) && d in s.tasks
    ensures forall e :: e in s.tasks[d].dependsOn ==> e in s.tasks
  {
  }

  lemma DueDepFinished(s: Tower, t: TaskId, d: TaskId)
    requires DepsExist(s) && Due(s, t) && d in s.tasks[t].dependsOn
    ensures d in s.tasks && s.tasks[d].status.Finished?
  {
    DepsFinishedIffDistinct(s.tasks, s.tasks[t].dependsOn);
  }

  /** Once one scan has reopened `d` and moved on, nothing in flight readies `t`. */
  lemma ReopenedSleeps(s: Tower, s': Tower, t: TaskId, d: TaskId, r: RequestId)
    requires DepsExist(s) && t in s.tasks && s.tasks[t].status.Pending? && !ArmedFor(s, t)
    requires s'.tasks.Keys == s.tasks.Keys && s'.tasks[t] == s.tasks[t]
    requires d in s.tasks[t].dependsOn && s'.tasks[d].status.Ready?
    requires s'.inflight.Keys == s.inflight.Keys && r in s.inflight && s'.inflight[r].UnblockScan?
    requires forall q :: q in s.inflight && q != r ==> s'.inflight[q] == s.inflight[q]
    ensures Asleep(s', t, s.tasks[t])
  {
    hide Asleep;
    ReadyDepSleeps(s', t, d);
  }

  lemma {:induction false} TodosExistRun(s: Tower, steps: seq<Step>)
    requires TodosExist(s)
    ensures TodosExist(Run(s, steps))
    decreases |steps|
  {
    hide Apply, TodosExist;
    if steps != [] {
      TodosExistStep(s, steps[0]);
      TodosExistRun(Apply(s, steps[0]), steps[1..]);
    }
  }

  lemma UnattendedSleeps(s: Tower, t: TaskId)
    requires Due(s, t) && !Attended(s, t, s.tasks[t])
    ensures Asleep(s, t, s.tasks[t])
  {
    hide DepsFinished, Waits;
    forall r | r in s.inflight
      ensures !Wakes(s.inflight[r], t, s.tasks[t])
    {
      assert !Attends(s.inflight[r], t, s.tasks[t]);
    }
    forall r | r in s.inflight && s.inflight[r].UnblockArmed?
      ensures s.inflight[r].task != t
    {
      assert !Attends(s.inflight[r], t, s.tasks[t]);
    }
  }

  /** Otherwise some order in which the scans run to their end leaves `t` pending. */
  lemma SomeOrderLeaves(s: Tower, t: TaskId) returns (steps: seq<Step>)
    requires DepsExist(s) && TodosExist(s) && Due(s, t) && !ArmedFor(s, t)
    requires !Attended(s, t, s.tasks[t]) || Reopenable(s, s.tasks[t].dependsOn)
    ensures AllScans(steps) && Drained(Run(s, steps)) && !IsReady(Run(s, steps), t)
  {
    hide Apply, DepsExist, TodosExist, DepsFinished, AllScans, Run;
    var first := [];
    if Attended(s, t, s.tasks[t]) {
      first := ReopenFirst(s, t);
    } else {
      UnattendedSleeps(s, t);
      RunNone(s, first);
      NoScans();
    }
    var s1 := Run(s, first);
    TodosExistRun(s, first);
    var rest := DrainAll(s1, s1.inflight.Keys);
    ScansConcat(s, first, rest);
    DepsExistRun(s, first);
    AsleepRun(s1, rest, t, s.tasks[t]);
    steps := first + rest;
  }

  lemma {:induction false} DepsExistRun(s: Tower, steps: seq<Step>)
    requires DepsExist(s)
    ensures DepsExist(Run(s, steps))
    decreases |steps|
  {
    hide Apply, DepsExist;
    if steps != [] {
      DepsExistStep(s, steps[0]);
      DepsExistRun(Apply(s, steps[0]), steps[1..]);
    }
  }

  /** The scans in flight ready a task whose dependencies are finished, in every order in which
      they run to their end, if and only if one is about to write it, or one has still to look
      at it and none can reopen a dependency. */
  lemma EveryOrderReadiesIff(s: Tower, t: TaskId)
    requires DepsExist(s) && TodosExist(s) && Due(s, t)
    ensures (forall steps :: AllScans(steps) && Drained(Run(s, steps)) ==> IsReady(Run(s, steps), t))
            <==> ArmedFor(s, t) || (Attended(s, t, s.tasks[t]) && !Reopenable(s, s.tasks[t].dependsOn))
  {
    hide DepsExist, TodosExist, AllScans, Drained, IsReady, ArmedFor, Attended, Reopenable;
    if ArmedFor(s, t) || (Attended(s, t, s.tasks[t]) && !Reopenable(s, s.tasks[t].dependsOn)) {
      forall steps | AllScans(steps) && Drained(Run(s, steps))
        ensures IsReady(Run(s, steps), t)
      {
        SecuredRun(s, steps, t);
        DrainedIsReady(Run(s, steps), t);
      }
    } else {
      var steps := SomeOrderLeaves(s, t);
    }
  }

  /** Both conditions on the state hold of every state a run from the empty tower reaches. */
  lemma ReachableTodos(steps: seq<Step>)
    ensures DepsExist(Run(EMPTY_TOWER, steps)) && TodosExist(Run(EMPTY_TOWER, steps))
  {
    hide Run, Apply;
    DepsExistRun(EMPTY_TOWER, steps);
    TodosExistRun(EMPTY_TOWER, steps);
  }
}
