/** `watch_task`: polling one task's status and progress while the tower goes on serving
    everybody else. The tower is the one of TaskLeases, so what it answers is proved
    there to be an append-only log numbered without gaps. */
module WatchTask {
  import opened Options
  import opened DependencyGraph
  import opened TaskLeases

  // ---------- The progress log ----------

  /** The n-th event of every task carries the number n. */
  ghost predicate Dense(events: seq<ProgressEvent>) {
    forall i :: 0 <= i < |events| ==> events[i].seqNo == i
  }

  ghost predicate AllDense(s: Tower) {
    forall t :: t in s.progress ==> Dense(s.progress[t])
  }

  lemma {:induction false} DenseMax(events: seq<ProgressEvent>)
    requires Dense(events)
    ensures MaxSeq(events) == |events| - 1
  {
    if events != [] {
      DenseMax(events[..|events| - 1]);
    }
  }

  lemma ProgressStep(s: Tower, step: Step, t: TaskId)
    requires AllDense(s)
    ensures AllDense(Apply(s, step))
    ensures EventsOf(s, t) <= EventsOf(Apply(s, step), t)
  {
    if step.AppendProgress? {
      hide FenceLive, MaxSeq;
      DenseMax(EventsOf(s, step.task));
    } else {
      OnlyAppendsTouchProgress(s, step);
    }
  }

  lemma OnlyAppendsTouchProgress(s: Tower, step: Step)
    requires !step.AppendProgress?
    ensures Apply(s, step).progress == s.progress
  {
    hide DepsFinished, AnyRejected, AllResolved, HasPendingGate, FenceLive, FenceFinal, Sweepable, Waits, NextSeq;
    hide SqlEq, Clamp, Fresh, Expire, EventsOf;
  }

  /** Over any run the log of each task stays gapless and only grows at its end, whichever
      requests race to append to it. */
  lemma {:induction false} ProgressRun(s: Tower, steps: seq<Step>, t: TaskId)
    requires AllDense(s)
    ensures AllDense(Run(s, steps)) && EventsOf(s, t) <= EventsOf(Run(s, steps), t)
    decreases |steps|
  {
    hide Apply, AllDense, EventsOf;
    if steps != [] {
      ProgressStep(s, steps[0], t);
      ProgressRun(Apply(s, steps[0]), steps[1..], t);
    }
  }

  // ---------- The poller ----------

  /** One round: what the tower does before the status is read, between the two reads, and
      whether each of the two requests gets an answer. */
  datatype Round = Round(before: seq<Step>, between: seq<Step>, statusOk: bool, progressOk: bool)

  datatype Outcome = Ended(status: Status) | Interrupted | RequestFailed

  /** The tower when the status of round `n` is read, and when its progress is read. */
  function AtStatus(s: Tower, rounds: seq<Round>, n: nat): Tower
    requires n < |rounds|
    decreases n, 1
  {
    Run(AtProgress(s, rounds, n), rounds[n].before)
  }

  function AtProgress(s: Tower, rounds: seq<Round>, n: nat): Tower
    requires n <= |rounds|
    decreases n, 0
  {
    if n == 0 then s else Run(AtStatus(s, rounds, n - 1), rounds[n - 1].between)
  }

  /** `seq > since ORDER BY seq`; the rows of a task are stored in that order. */
  function Since(events: seq<ProgressEvent>, since: int): seq<ProgressEvent>
    decreases |events|
  {
    if events == [] then []
    else
      var front := Since(events[..|events| - 1], since);
      var last := events[|events| - 1];
      if last.seqNo > since then front + [last] else front
  }

  lemma {:induction false} SinceIsSuffix(events: seq<ProgressEvent>, k: nat)
    requires Dense(events) && k <= |events|
    ensures Since(events, k - 1) == events[k..]
    decreases |events|
  {
    if k < |events| {
      SinceIsSuffix(events[..|events| - 1], k);
    } else if events != [] {
      SinceIsSuffix(events[..|events| - 1], k - 1);
      SinceMonotone(events[..|events| - 1], k - 2);
    }
  }

  lemma {:induction false} SinceMonotone(events: seq<ProgressEvent>, since: int)
    requires Dense(events) && since + 1 >= |events| - 1
    ensures Since(events, since + 1) == []
    decreases |events|
  {
    if events != [] {
      SinceMonotone(events[..|events| - 1], since);
    }
  }

  predicate Terminal(status: Status) {
    status in {Finished, Failed, Cancelled}
  }

  lemma TerminalIff(status: Status)
    ensures Terminal(status) <==> status !in {Pending, Ready, Claimed, Running, Blocked, WaitingReview}
    ensures Terminal(status) <==> status in {Finished, Failed, Cancelled}
  {
  }

  /** The status read in round `n` finds the task, and shows it still at work. */
  ghost predicate StillWorking(tower: Tower, rounds: seq<Round>, t: TaskId, n: nat)
    requires n < |rounds|
  {
    && t in AtStatus(tower, rounds, n).tasks
    && AtStatus(tower, rounds, n).tasks[t].status in {Pending, Ready, Claimed, Running, Blocked, WaitingReview}
  }

  /** Prints every event exactly once and in order. When it ends on its own the task's
      status was terminal, and everything recorded before that status was read is printed. */
  method Watch(tower: Tower, t: TaskId, rounds: seq<Round>)
    returns (printed: seq<ProgressEvent>, done: nat, outcome: Outcome)
    requires AllDense(tower)
    ensures done <= |rounds|
    ensures printed == EventsOf(AtProgress(tower, rounds, done), t) || (done == 0 && printed == [])
    ensures outcome.Ended? ==>
              && done > 0 && t in AtStatus(tower, rounds, done - 1).tasks
              && outcome.status == AtStatus(tower, rounds, done - 1).tasks[t].status
              && outcome.status in {Finished, Failed, Cancelled}
              && EventsOf(AtStatus(tower, rounds, done - 1), t) <= printed
    ensures forall n :: 0 <= n < done - (if outcome.Ended? then 1 else 0) ==> StillWorking(tower, rounds, t, n)
    ensures outcome.Interrupted? ==> done == |rounds|
    ensures outcome.RequestFailed? ==>
              && done < |rounds|
              && (|| !rounds[done].statusOk || !rounds[done].progressOk
                  || t !in AtStatus(tower, rounds, done).tasks || t !in AtProgress(tower, rounds, done + 1).tasks)
  {
    hide Run, Apply, AllDense, EventsOf, Terminal, AtStatus, AtProgress, Since;
    assert AtProgress(tower, rounds, 0) == tower by { NoRoundYet(tower, rounds); }
    printed := [];
    done := 0;
    var lastSeq := -1;
    var current := tower;
    while done < |rounds|
      invariant done <= |rounds| && current == AtProgress(tower, rounds, done) && AllDense(current)
      invariant printed == EventsOf(current, t) || (done == 0 && printed == [])
      invariant lastSeq == |printed| - 1
      invariant forall n :: 0 <= n < done ==> StillWorking(tower, rounds, t, n)
    {
      var round := rounds[done];
      OneRound(tower, rounds, done);
      ghost var start := current;
      current := Run(current, round.before);
      if !round.statusOk || t !in current.tasks {
        return printed, done, RequestFailed;
      }
      var status := current.tasks[t].status;
      ghost var atStatus := current;
      current := Run(current, round.between);
      if !round.progressOk || t !in current.tasks {
        return printed, done, RequestFailed;
      }
      RoundGrows(start, round, t, printed);
      var page := Since(EventsOf(current, t), lastSeq);
      PageIsTheRest(current, t, |printed|);
      printed, lastSeq := PrintPage(printed, page, lastSeq);
      done := done + 1;
      TerminalIff(status);
      if Terminal(status) {
        return printed, done, Ended(status);
      }
      assert StillWorking(tower, rounds, t, done - 1);
    }
    return printed, done, Interrupted;
  }

  lemma NoRoundYet(tower: Tower, rounds: seq<Round>)
    ensures AtProgress(tower, rounds, 0) == tower
  {
  }

  lemma OneRound(tower: Tower, rounds: seq<Round>, n: nat)
    requires n < |rounds|
    ensures AtStatus(tower, rounds, n) == Run(AtProgress(tower, rounds, n), rounds[n].before)
    ensures AtProgress(tower, rounds, n + 1) == Run(AtStatus(tower, rounds, n), rounds[n].between)
  {
    hide Run;
  }

  lemma RoundGrows(start: Tower, round: Round, t: TaskId, printed: seq<ProgressEvent>)
    requires AllDense(start) && printed <= EventsOf(start, t)
    ensures var s1 := Run(start, round.before);
            var s2 := Run(s1, round.between);
            AllDense(s2) && EventsOf(s1, t) <= EventsOf(s2, t) && printed <= EventsOf(s2, t)
  {
    ProgressRun(start, round.before, t);
    ProgressRun(Run(start, round.before), round.between, t);
  }

  method PrintPage(printed: seq<ProgressEvent>, page: seq<ProgressEvent>, since: int)
    returns (printed': seq<ProgressEvent>, lastSeq: int)
    requires since == |printed| - 1 && forall i :: 0 <= i < |page| ==> page[i].seqNo == |printed| + i
    ensures printed' == printed + page && lastSeq == |printed'| - 1
  {
    printed', lastSeq := printed, since;
    for i := 0 to |page|
      invariant printed' == printed + page[..i] && lastSeq == |printed'| - 1
    {
      printed' := printed' + [page[i]];
      lastSeq := if page[i].seqNo > lastSeq then page[i].seqNo else lastSeq;
    }
  }

  lemma PageIsTheRest(s: Tower, t: TaskId, k: nat)
    requires AllDense(s) && k <= |EventsOf(s, t)|
    ensures var page := Since(EventsOf(s, t), k - 1);
            && page == EventsOf(s, t)[k..]
            && (forall i :: 0 <= i < |page| ==> page[i].seqNo == k + i)
            && EventsOf(s, t)[..k] + page == EventsOf(s, t)
  {
    SinceIsSuffix(EventsOf(s, t), k);
  }
}
