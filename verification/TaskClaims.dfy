/** When a claim that is live stays live: no stale reader in flight may overwrite its task. */
module TaskClaims {
  import opened Options
  import opened DependencyGraph
  import opened TaskLeases
  import opened TaskLifecycle

  // ---------- A live claim ----------

  /** A claim of a task that is not broadcast, under a lease that has not run out. */
  ghost predicate Held(s: Tower, t: TaskId) {
    && t in s.tasks
    && var row := s.tasks[t];
       && !row.policy.Broadcast? && row.status in {Claimed, Running}
       && row.lease.Some? && row.claimer.Some? && row.expires.Some? && row.expires.value >= s.now
  }

  /** The step is no request about `t` by its claimer, the bearer of its lease, or a bypass
      caller. */
  ghost predicate Foreign(step: Step, t: TaskId, row: Task) {
    match step
    case Heartbeat(a, u, lease) => u == t ==> !Entitled(row, a.subjectId, lease, a.bypass)
    case AppendProgress(a, u, lease, _) => u == t ==> !Entitled(row, a.subjectId, Some(lease), a.bypass)
    case Complete(_, a, u, lease, onBehalf) => u == t ==> !Entitled(row, Effective(a, onBehalf), lease, a.bypass)
    case Fail(a, u, lease, onBehalf) => u == t ==> !Entitled(row, Effective(a, onBehalf), lease, a.bypass)
    case Block(a, u, lease) => u == t ==> !Entitled(row, a.subjectId, lease, a.bypass)
    case Unblock(a, u) => u == t ==> !Entitled(row, a.subjectId, None, a.bypass)
    case Cancel(a, u) => u == t ==> !Entitled(row, a.subjectId, None, a.bypass)
    case _ => true
  }

  ghost predicate AllForeign(steps: seq<Step>, t: TaskId, row: Task) {
    forall i :: 0 <= i < |steps| ==> Foreign(steps[i], t, row)
  }

  /** A request in flight will, or can be brought to, write the status of `t` without looking:
      a dispatch that read it ready, or a scan for dependents that selected it while it waited. */
  ghost predicate Threatens(p: Inflight, t: TaskId, deps: seq<TaskId>) {
    match p
    case DispatchRead(u) => u == t
    case UnblockScan(todo) => t in todo && NoDuplicates(deps) && t !in deps
    case UnblockArmed(u, todo) => u == t || (t in todo && NoDuplicates(deps) && t !in deps)
    case _ => false
  }

  ghost predicate Threatened(s: Tower, t: TaskId)
    requires t in s.tasks
  {
    exists r :: r in s.inflight && Threatens(s.inflight[r], t, s.tasks[t].dependsOn)
  }

  // ---------- One step ----------

  ghost predicate Secure(s: Tower, t: TaskId) {
    PoliciesAgree(s) && DepsExist(s) && Held(s, t) && !Threatened(s, t)
  }

  lemma ForeignRequestsFail(s: Tower, step: Step, t: TaskId)
    requires Held(s, t) && IsClaimerStep(step) && Foreign(step, t, s.tasks[t])
    ensures t in Apply(s, step).tasks && Apply(s, step).tasks[t] == s.tasks[t]
  {
    hide HasPendingGate, NextSeq, Fresh;
  }

  lemma WritesSpare(s: Tower, step: Step, t: TaskId)
    requires Secure(s, t) && (step.ClaimWrite? || step.DispatchWrite? || step.UnblockWrite?)
    ensures t in Apply(s, step).tasks && Apply(s, step).tasks[t] == s.tasks[t]
  {
    hide DepsExist, NoDuplicates;
  }

  lemma OthersSpare(s: Tower, step: Step, t: TaskId)
    requires Held(s, t) && !IsClaimerStep(step)
    requires !(step.ClaimWrite? || step.DispatchWrite? || step.UnblockWrite?)
    ensures t in Apply(s, step).tasks && Apply(s, step).tasks[t] == s.tasks[t]
  {
    hide DepsFinished, AnyRejected, AllResolved, Waits, Clamp;
  }

  lemma NothingThreatens(s: Tower, step: Step, t: TaskId, r: RequestId)
    requires Secure(s, t) && r in Apply(s, step).inflight
    ensures !Threatens(Apply(s, step).inflight[r], t, s.tasks[t].dependsOn)
  {
    hide Apply, DepsFinished, NoDuplicates, PoliciesAgree;
    StepInflight(s, step);
    DepsFinishedIffDistinct(s.tasks, s.tasks[t].dependsOn);
    assert Follows(s, InflightOf(s, r), Apply(s, step).inflight[r]);
  }

  /** One step of anyone else leaves the row exactly as it is. */
  lemma SecureStep(s: Tower, step: Step, t: TaskId)
    requires Secure(s, t) && Foreign(step, t, s.tasks[t]) && Apply(s, step).now <= s.tasks[t].expires.value
    ensures Secure(Apply(s, step), t) && Apply(s, step).tasks[t] == s.tasks[t]
  {
    hide Apply, PoliciesAgree, DepsExist, Foreign, Threatens, Entitled;
    PoliciesAgreeStep(s, step);
    DepsExistStep(s, step);
    if IsClaimerStep(step) {
      ForeignRequestsFail(s, step, t);
    } else if step.ClaimWrite? || step.DispatchWrite? || step.UnblockWrite? {
      WritesSpare(s, step, t);
    } else {
      OthersSpare(s, step, t);
    }
    forall r | r in Apply(s, step).inflight
      ensures !Threatens(Apply(s, step).inflight[r], t, s.tasks[t].dependsOn)
    {
      NothingThreatens(s, step, t, r);
    }
  }

  lemma TimePasses(s: Tower, step: Step)
    ensures s.now <= Apply(s, step).now
  {
    hide AnyRejected, AllResolved, HasPendingGate, FenceLive, FenceFinal, NextSeq, Sweepable, SqlEq, DepsFinished;
  }

  lemma {:induction false} TimeOnlyPasses(s: Tower, steps: seq<Step>)
    ensures s.now <= Run(s, steps).now
    decreases |steps|
  {
    hide Apply;
    if steps != [] {
      TimePasses(s, steps[0]);
      TimeOnlyPasses(Apply(s, steps[0]), steps[1..]);
    }
  }

  // ---------- Whole runs ----------

  lemma {:induction false} SecureRun(s: Tower, steps: seq<Step>, t: TaskId)
    requires Secure(s, t) && AllForeign(steps, t, s.tasks[t]) && Run(s, steps).now <= s.tasks[t].expires.value
    ensures Secure(Run(s, steps), t) && Run(s, steps).tasks[t] == s.tasks[t]
    decreases |steps|
  {
    hide Apply, Secure, Foreign;
    if steps != [] {
      var s1 := Apply(s, steps[0]);
      TimeOnlyPasses(s1, steps[1..]);
      assert t in s.tasks && s.tasks[t].expires.Some? by { SecureIsHeld(s, t); }
      SecureStep(s, steps[0], t);
      SecureRun(s1, steps[1..], t);
    }
  }

  lemma SecureIsHeld(s: Tower, t: TaskId)
    requires Secure(s, t)
    ensures Held(s, t)
  {
  }

  lemma SpareIsForeign(steps: seq<Step>, t: TaskId, row: Task)
    requires AllSpare(steps, t)
    ensures AllForeign(steps, t, row)
  {
    forall i | 0 <= i < |steps|
      ensures Foreign(steps[i], t, row)
    {
      assert Spares(steps[i], t);
    }
  }

  /** From any state with such a request in flight, others alone end the claim at once. */
  lemma ThreatEndsClaim(s: Tower, t: TaskId) returns (steps: seq<Step>)
    requires DepsExist(s) && Held(s, t) && Threatened(s, t)
    ensures AllForeign(steps, t, s.tasks[t]) && Run(s, steps).now == s.now
    ensures t in Run(s, steps).tasks && !SameClaim(s.tasks[t], Run(s, steps).tasks[t])
  {
    hide Foreign, AllSpare;
    var r :| r in s.inflight && Threatens(s.inflight[r], t, s.tasks[t].dependsOn);
    match s.inflight[r] {
      case DispatchRead(_) =>
        steps := [DispatchWrite(r)];
        RunOne(s, steps[0]);
        assert AllSpare(steps, t) by { OneSpares(steps[0], t); }
      case UnblockScan(_) =>
        steps := ScanCanReady(s, t, r);
      case UnblockArmed(u, todo) =>
        RunOne(s, UnblockWrite(r));
        OneSpares(UnblockWrite(r), t);
        if u == t {
          steps := [UnblockWrite(r)];
        } else {
          var s1 := Apply(s, UnblockWrite(r));
          DepsExistStep(s, UnblockWrite(r));
          var rest := ScanCanReady(s1, t, r);
          RunConcat(s, [UnblockWrite(r)], rest);
          steps := [UnblockWrite(r)] + rest;
          assert AllSpare(steps, t) by { SpareCons(UnblockWrite(r), rest, t); }
        }
    }
    SpareIsForeign(steps, t, s.tasks[t]);
  }

  lemma OneSpares(step: Step, t: TaskId)
    requires Spares(step, t)
    ensures AllSpare([step], t)
  {
  }

  lemma SpareCons(step: Step, rest: seq<Step>, t: TaskId)
    requires Spares(step, t) && AllSpare(rest, t)
    ensures AllSpare([step] + rest, t)
  {
  }

  /** A live claim, exclusive or without a policy, survives within its lease whatever others
      do if and only if no request in flight threatens its task. */
  lemma LiveClaimSurvivesIff(s: Tower, t: TaskId)
    requires PoliciesAgree(s) && DepsExist(s) && Held(s, t)
    ensures (forall steps :: AllForeign(steps, t, s.tasks[t]) && Run(s, steps).now <= s.tasks[t].expires.value ==>
               t in Run(s, steps).tasks && SameClaim(s.tasks[t], Run(s, steps).tasks[t]))
            <==> !Threatened(s, t)
  {
    hide AllForeign, Threatens, PoliciesAgree, DepsExist;
    if Threatened(s, t) {
      var steps := ThreatEndsClaim(s, t);
      assert t in Run(s, steps).tasks && !SameClaim(s.tasks[t], Run(s, steps).tasks[t]);
    } else {
      forall steps | AllForeign(steps, t, s.tasks[t]) && Run(s, steps).now <= s.tasks[t].expires.value
        ensures t in Run(s, steps).tasks && SameClaim(s.tasks[t], Run(s, steps).tasks[t])
      {
        SecureRun(s, steps, t);
        SecureIsHeld(Run(s, steps), t);
      }
    }
  }

  // ---------- How a live claim is lost ----------

  /** The task of an agent "x" is finished under its hands by the creator, who had asked for a
      dispatch before "x" claimed: one run from the empty tower. */
  lemma DispatchEndsLiveClaim(t: TaskId)
    ensures var creator := Actor("c", "c", false, false);
            var before := [Insert(t, 0, Exclusive, [], true, "c"), DispatchFetch(1, creator, t),
                           McpClaim(t, "x", Lease(0), 60)];
            && Held(Run(EMPTY_TOWER, before), t)
            && t in Run(EMPTY_TOWER, before).tasks && Run(EMPTY_TOWER, before).tasks[t].claimer == Some("x")
            && t in Run(EMPTY_TOWER, before + [DispatchWrite(1)]).tasks
            && Run(EMPTY_TOWER, before + [DispatchWrite(1)]).tasks[t].status.Finished?
  {
    hide Apply, Run, Held;
    var creator := Actor("c", "c", false, false);
    var before := [Insert(t, 0, Exclusive, [], true, "c"), DispatchFetch(1, creator, t),
                   McpClaim(t, "x", Lease(0), 60)];
    RunThree(EMPTY_TOWER, before);
    RunConcat(EMPTY_TOWER, before, [DispatchWrite(1)]);
    RunOne(Run(EMPTY_TOWER, before), DispatchWrite(1));
    InsertedThenRead(t);
    ClaimedUnderRead(Apply(Apply(EMPTY_TOWER, before[0]), before[1]), t);
    DispatchOverwrites(Run(EMPTY_TOWER, before), t);
  }

  lemma InsertedThenRead(t: TaskId)
    ensures var s := Apply(Apply(EMPTY_TOWER, Insert(t, 0, Exclusive, [], true, "c")),
                           DispatchFetch(1, Actor("c", "c", false, false), t));
            t in s.tasks && s.tasks[t].status.Ready? && s.tasks[t].policy.Exclusive?
            && s.inflight == map[1 := DispatchRead(t)] && s.issued == {}
  {
  }

  lemma ClaimedUnderRead(s: Tower, t: TaskId)
    requires t in s.tasks && s.tasks[t].status.Ready? && s.tasks[t].policy.Exclusive? && s.issued == {}
    ensures var s' := Apply(s, McpClaim(t, "x", Lease(0), 60));
            Held(s', t) && s'.tasks[t].claimer == Some("x") && s'.inflight == s.inflight
  {
  }

  lemma DispatchOverwrites(s: Tower, t: TaskId)
    requires t in s.tasks && 1 in s.inflight && s.inflight[1] == DispatchRead(t)
    ensures t in Apply(s, DispatchWrite(1)).tasks && Apply(s, DispatchWrite(1)).tasks[t].status.Finished?
  {
  }

  lemma RunThree(s: Tower, steps: seq<Step>)
    requires |steps| == 3
    ensures Run(s, steps) == Apply(Apply(Apply(s, steps[0]), steps[1]), steps[2])
  {
    hide Apply;
    RunTwo(s, steps);
    assert steps[2..] == [steps[2]];
    RunOne(Apply(Apply(s, steps[0]), steps[1]), steps[2]);
  }

  /** Of two scans that both found the dependencies of `t` finished, the first readies it, an
      agent claims it, and the second readies it again: the holder is shut out at once, its
      lease not run out, and another agent can take the claim over. */
  lemma SecondScanEndsLiveClaim(s: Tower, t: TaskId, r1: RequestId, r2: RequestId, x: AgentId, y: AgentId,
                                first: Lease, second: Lease)
    requires t in s.tasks && s.tasks[t].status.Pending? && !s.tasks[t].policy.Broadcast?
    requires r1 != r2 && r1 in s.inflight && s.inflight[r1] == UnblockArmed(t, {})
    requires r2 in s.inflight && s.inflight[r2] == UnblockArmed(t, {})
    requires first != second && first !in s.issued && second !in s.issued && x != y
    ensures var s1 := Apply(Apply(s, UnblockWrite(r1)), McpClaim(t, x, first, 60));
            var s2 := Apply(s1, UnblockWrite(r2));
            var s3 := Apply(s2, McpClaim(t, y, second, 60));
            && Held(s1, t) && s1.tasks[t].claimer == Some(x)
            && t in s2.tasks && s2.tasks[t].lease == Some(first)
            && (forall id :: !FenceFinal(s2.tasks[t], id, Some(first), false, s2.now))
            && !FenceLive(s2.tasks[t], Some(first), false, s2.now)
            && s3.now == s.now && t in s3.tasks && s3.tasks[t].claimer == Some(y) && s3.tasks[t].lease == Some(second)
  {
    hide SqlEq, Threatens;
    var s1 := DoMcpClaim(DoUnblockWrite(s, r1), t, x, first, 60);
    assert s1.inflight[r2] == UnblockArmed(t, {});
    var s2 := DoUnblockWrite(s1, r2);
    assert s2.tasks[t].status.Ready? && s2.issued == s.issued + {first};
  }

  const CREATOR := "c"
  const WORKER := Actor("w", "w", false, false)

  /** Two tasks are completed, and the scan each completion starts finds both finished before
      either writes. */
  function RacingScans(d1: TaskId, d2: TaskId, t: TaskId): seq<Step> {
    [Insert(d1, 0, Exclusive, [], true, CREATOR), Insert(d2, 0, Exclusive, [], true, CREATOR),
     Insert(t, 0, Exclusive, [d1, d2], false, CREATOR)]
    + [McpClaim(d1, "w", Lease(0), 60), McpClaim(d2, "w", Lease(1), 60), Complete(1, WORKER, d1, Some(Lease(0)), None)]
    + [Complete(2, WORKER, d2, Some(Lease(1)), None), UnblockSelect(1), UnblockSelect(2)]
    + [UnblockCheck(1, t), UnblockCheck(2, t)]
  }

  function Waiting(d1: TaskId, d2: TaskId): Task {
    Task(0, Pending, Exclusive, [d1, d2], None, None, None, 0, 0, MAX_ATTEMPTS, None, CREATOR, 0)
  }

  function Free(): Task {
    Task(0, Ready, Exclusive, [], None, None, None, 0, 0, MAX_ATTEMPTS, None, CREATOR, 0)
  }

  lemma Inserted(d1: TaskId, d2: TaskId, t: TaskId)
    requires d1 != d2 && d1 != t && d2 != t
    ensures var s := Apply(Apply(Apply(EMPTY_TOWER, Insert(d1, 0, Exclusive, [], true, CREATOR)),
                                 Insert(d2, 0, Exclusive, [], true, CREATOR)),
                           Insert(t, 0, Exclusive, [d1, d2], false, CREATOR));
            s == EMPTY_TOWER.(tasks := map[d1 := Free(), d2 := Free(), t := Waiting(d1, d2)])
  {
    var s2 := Apply(Apply(EMPTY_TOWER, Insert(d1, 0, Exclusive, [], true, CREATOR)),
                    Insert(d2, 0, Exclusive, [], true, CREATOR));
    assert s2.tasks == map[d1 := Free(), d2 := Free()];
  }

  /** A claimed task without gates is completed by its claimer. */
  lemma Completed(s: Tower, d: TaskId, r: RequestId, lease: Lease)
    requires d in s.tasks && s.tasks[d].status.Claimed? && s.tasks[d].claimer == Some("w") && s.gates == map[]
              && r !in s.inflight
    ensures var s' := Apply(s, Complete(r, WORKER, d, Some(lease), None));
            && d in s'.tasks && s'.tasks == s.tasks[d := s'.tasks[d]] && s'.tasks[d].status.Finished?
            && s'.tasks[d].mission == s.tasks[d].mission
            && s'.inflight == s.inflight[r := UnblockStart(s.tasks[d].mission, d)]
            && s'.gates == s.gates && s'.issued == s.issued && s'.now == s.now
  {
  }

  lemma Scanned(s: Tower, d1: TaskId, d2: TaskId, t: TaskId, r: RequestId, d: TaskId)
    requires s.tasks.Keys == {d1, d2, t} && d1 != t && d2 != t && d in {d1, d2}
    requires s.tasks[d1].status.Finished? && s.tasks[d2].status.Finished? && s.tasks[t] == Waiting(d1, d2)
    requires r in s.inflight && s.inflight[r] == UnblockStart(0, d)
    ensures Apply(s, UnblockSelect(r)) == s.(inflight := s.inflight[r := UnblockScan({t})])
  {
    assert d in [d1, d2];
    assert (set c | c in s.tasks && Waits(s.tasks[c], 0, d)) == {t};
  }

  lemma Checked(s: Tower, d1: TaskId, d2: TaskId, t: TaskId, r: RequestId)
    requires s.tasks.Keys == {d1, d2, t} && d1 != d2
    requires s.tasks[d1].status.Finished? && s.tasks[d2].status.Finished? && s.tasks[t] == Waiting(d1, d2)
    requires r in s.inflight && s.inflight[r] == UnblockScan({t})
    ensures Apply(s, UnblockCheck(r, t)) == s.(inflight := s.inflight[r := UnblockArmed(t, {})])
  {
    DepsFinishedIffDistinct(s.tasks, [d1, d2]);
    assert {t} - {t} == {};
  }

  /** ... so two scans armed for one task do arise, and with them the loss of a live claim. */
  lemma ScansDoRace(d1: TaskId, d2: TaskId, t: TaskId)
    requires d1 != d2 && d1 != t && d2 != t
    ensures var s := Run(EMPTY_TOWER, RacingScans(d1, d2, t));
            && t in s.tasks && s.tasks[t] == Waiting(d1, d2) && s.issued == {Lease(0), Lease(1)}
            && s.inflight == map[1 := UnblockArmed(t, {}), 2 := UnblockArmed(t, {})]
  {
    hide Apply, Run;
    var run := RacingScans(d1, d2, t);
    var a, b, c, d := run[..3], run[3..6], run[6..9], run[9..];
    assert run == a + b + c + d;
    RunConcat(EMPTY_TOWER, a + b + c, d);
    RunConcat(EMPTY_TOWER, a + b, c);
    RunConcat(EMPTY_TOWER, a, b);
    RunThree(EMPTY_TOWER, a);
    Inserted(d1, d2, t);
    var s1 := Run(EMPTY_TOWER, a);
    RunThree(s1, b);
    var s3 := Apply(Apply(s1, b[0]), b[1]);
    assert s3.tasks.Keys == {d1, d2, t} && s3.tasks[t] == Waiting(d1, d2) && s3.gates == map[] && s3.inflight == map[]
           && s3.tasks[d1].claimer == Some("w") && s3.tasks[d2].claimer == Some("w")
                && s3.issued == {Lease(0), Lease(1)}
           && s3.tasks[d1].status.Claimed? && s3.tasks[d2].status.Claimed?
           && s3.tasks[d1].mission == s3.tasks[d2].mission == 0 by { BothClaimed(d1, d2, t); }
    Completed(s3, d1, 1, Lease(0));
    var s4 := Run(s1, b);
    RunThree(s4, c);
    Completed(s4, d2, 2, Lease(1));
    var s5 := Apply(s4, c[0]);
    Scanned(s5, d1, d2, t, 1, d1);
    var s6 := Apply(s5, c[1]);
    Scanned(s6, d1, d2, t, 2, d2);
    var s7 := Run(s4, c);
    RunTwo(s7, d);
    Checked(s7, d1, d2, t, 1);
    Checked(Apply(s7, d[0]), d1, d2, t, 2);
    RunNone(Apply(Apply(s7, d[0]), d[1]), d[2..]);
  }

  lemma RunNone(s: Tower, steps: seq<Step>)
    requires steps == []
    ensures Run(s, steps) == s
  {
  }

  lemma BothClaimed(d1: TaskId, d2: TaskId, t: TaskId)
    requires d1 != d2 && d1 != t && d2 != t
    ensures var s1 := EMPTY_TOWER.(tasks := map[d1 := Free(), d2 := Free(), t := Waiting(d1, d2)]);
            var s3 := Apply(Apply(s1, McpClaim(d1, "w", Lease(0), 60)), McpClaim(d2, "w", Lease(1), 60));
            && s3.tasks.Keys == {d1, d2, t} && s3.tasks[t] == Waiting(d1, d2) && s3.gates == map[]
                 && s3.inflight == map[]
            && s3.tasks[d1].claimer == Some("w") && s3.tasks[d2].claimer == Some("w")
                 && s3.issued == {Lease(0), Lease(1)}
            && s3.tasks[d1].status.Claimed? && s3.tasks[d2].status.Claimed?
            && s3.tasks[d1].mission == s3.tasks[d2].mission == 0
  {
  }
}
