/** The fleet dashboard: a table replaced by every poll and annotated by streamed events,
    and the tail of the event stream. */
module Dashboard {
  import opened Options

  datatype AgentRow = AgentRow(
    agentId: string, systemdService: string, unitState: string, supervisePaused: bool,
    lastEventLabel: Option<string>, lastEventAt: Option<string>)

  datatype Color = Red | Yellow | Cyan | Magenta | Gray

  datatype TailLine = TailLine(text: string, color: Color)

  /** An event frame; every field may be missing. */
  datatype Frame = Frame(
    kind: Option<string>, at: Option<string>, agentId: Option<string>, result: Option<string>, reason: Option<string>)

  datatype Step =
    | Polled(rows: seq<AgentRow>)
    | PollFailed
    | Streamed(frame: Frame)

  // ---------- One event ----------

  function AgentOf(f: Frame): string {
    f.agentId.GetOr("?")
  }

  function UpperChar(c: char): char {
    if 'a' <= c <= 'z' then c - 'a' + 'A' else c
  }

  function Upper(s: string): string {
    seq(|s|, i requires 0 <= i < |s| => UpperChar(s[i]))
  }

  function Find(s: string, c: char): (k: nat)
    ensures k <= |s|
  {
    if s == [] || s[0] == c then 0 else 1 + Find(s[1..], c)
  }

  function TrimEndChar(s: string, c: char): string {
    if s != [] && s[|s| - 1] == c then TrimEndChar(s[..|s| - 1], c) else s
  }

  /** The part between 'T' and '.', without a trailing 'Z'; the whole text without a 'T'. */
  function ShortTime(at: string): string {
    var t := Find(at, 'T');
    if t == |at| then at
    else
      var rest := at[t + 1..];
      var field := rest[..Find(rest, 'T')];
      TrimEndChar(field[..Find(field, '.')], 'Z')
  }

  function Label(f: Frame): string {
    match f.kind.GetOr("?")
    case "unit_dead_detected" => "DEAD"
    case "unit_restarted" => "RESTART/" + f.result.GetOr("?")
    case "supervise_paused" => "PAUSED"
    case "supervise_resumed" => "RESUMED"
    case "nightly_restart_fired" => "NIGHTLY"
    case other => Upper(other)
  }

  function Pad(s: string, width: nat): string {
    if |s| >= width then s else s + seq(width - |s|, _ => ' ')
  }

  function LineOf(f: Frame): TailLine {
    var kind, agent := f.kind.GetOr("?"), AgentOf(f);
    var time := ShortTime(f.at.GetOr("?"));
    match kind
    case "unit_restarted" =>
      TailLine(time + "  RESTART    " + agent + " reason=" + f.reason.GetOr("?") + " result=" + f.result.GetOr("?"),
               Yellow)
    case "unit_dead_detected" => TailLine(time + "  DEAD       " + agent, Red)
    case "supervise_paused" => TailLine(time + "  PAUSED     " + agent, Cyan)
    case "supervise_resumed" => TailLine(time + "  RESUMED    " + agent, Cyan)
    case "nightly_restart_fired" => TailLine(time + "  NIGHTLY    " + agent, Magenta)
    case other => TailLine(time + "  " + Pad(other, 10) + " " + agent, Gray)
  }

  // ---------- The table ----------

  /** Index of the first row of an agent, or the length. */
  function FirstRow(rows: seq<AgentRow>, agent: string): (k: nat)
    ensures k <= |rows|
    ensures k < |rows| ==> rows[k].agentId == agent
    ensures forall i :: 0 <= i < k ==> rows[i].agentId != agent
  {
    if rows == [] || rows[0].agentId == agent then 0 else 1 + FirstRow(rows[1..], agent)
  }

  predicate Present(rows: seq<AgentRow>, agent: string) {
    exists i :: 0 <= i < |rows| && rows[i].agentId == agent
  }

  datatype LastEvent = LastEvent(text: Option<string>, at: Option<string>)

  const NO_EVENT := LastEvent(None, None)

  /** What the (first) row of an agent shows as its last event. */
  function ShownFor(rows: seq<AgentRow>, agent: string): LastEvent {
    var k := FirstRow(rows, agent);
    if k < |rows| then LastEvent(rows[k].lastEventLabel, rows[k].lastEventAt) else NO_EVENT
  }

  // ---------- What the history says ----------

  /** The most recent successful poll, if any, listed the agent. */
  predicate LastPollHas(hist: seq<Step>, agent: string)
    decreases |hist|
  {
    hist != [] &&
    match hist[|hist| - 1]
    case Polled(rows) => Present(rows, agent)
    case _ => LastPollHas(hist[..|hist| - 1], agent)
  }

  predicate IsEventOf(step: Step, agent: string) {
    step.Streamed? && AgentOf(step.frame) == agent
  }

  /** Step `j` is the latest event of the agent, its row was there at the time, and no later
      poll has lacked it. */
  ghost predicate LatestSinceAppeared(hist: seq<Step>, agent: string, j: nat) {
    && j < |hist| && IsEventOf(hist[j], agent) && LastPollHas(hist[..j], agent)
    && forall k :: j < k < |hist| ==>
         !IsEventOf(hist[k], agent) && (hist[k].Polled? ==> Present(hist[k].rows, agent))
  }

  ghost predicate TableAgrees(hist: seq<Step>, rows: seq<AgentRow>, agent: string) {
    && (Present(rows, agent) <==> LastPollHas(hist, agent))
    && (forall j: nat :: LatestSinceAppeared(hist, agent, j) ==>
          ShownFor(rows, agent) == LastEvent(Some(Label(hist[j].frame)), Some(ShortTime(hist[j].frame.at.GetOr("?")))))
    && ((forall j: nat :: !LatestSinceAppeared(hist, agent, j)) ==> ShownFor(rows, agent) == NO_EVENT)
  }

  /** The lines of every event ever streamed. */
  function AllLines(hist: seq<Step>): seq<TailLine>
    decreases |hist|
  {
    if hist == [] then []
    else
      var last := hist[|hist| - 1];
      AllLines(hist[..|hist| - 1]) + if last.Streamed? then [LineOf(last.frame)] else []
  }

  function LastN<T>(s: seq<T>, n: nat): seq<T> {
    if |s| <= n then s else s[|s| - n..]
  }

  class State {
    var agents: seq<AgentRow>
    var tail: seq<TailLine>
    const tailSize: nat
    ghost var hist: seq<Step>

    /** The tail is the last lines of the whole stream, and every row shows the latest event
        of its agent since the row last appeared, or none. */
    ghost predicate Valid()
      reads this
    {
      && tail == LastN(AllLines(hist), tailSize)
      && forall agent :: TableAgrees(hist, agents, agent)
    }

    constructor (tailSize: nat)
      ensures Valid() && hist == [] && this.tailSize == tailSize
    {
      agents, tail, hist := [], [], [];
      this.tailSize := tailSize;
      EmptyAgrees();
    }

    /** A poll answered: the new rows replace the table, each inheriting the last event of
        the first old row of the same agent. */
    method MergeSnapshot(polled: seq<AgentRow>)
      requires Valid()
      requires forall i :: 0 <= i < |polled| ==> polled[i].lastEventLabel == polled[i].lastEventAt == None
      modifies this
      ensures Valid() && hist == old(hist) + [Polled(polled)]
      ensures |agents| == |polled| && forall i :: 0 <= i < |polled| ==>
                agents[i].(lastEventLabel := None, lastEventAt := None) == polled[i]
    {
      hide TableAgrees, AllLines, LineOf, LastN;
      var newRows: seq<AgentRow> := [];
      for i := 0 to |polled|
        invariant newRows == Inherited(agents, polled[..i])
      {
        var row := polled[i];
        var k := FirstRow(agents, row.agentId);
        if k < |agents| {
          row := row.(lastEventLabel := agents[k].lastEventLabel, lastEventAt := agents[k].lastEventAt);
        }
        newRows := newRows + [row];
        assert polled[..i + 1] == polled[..i] + [polled[i]];
      }
      assert polled[..|polled|] == polled;
      forall agent
        ensures TableAgrees(hist + [Polled(polled)], newRows, agent)
      {
        PollAgrees(hist, agents, polled, agent);
      }
      QuietTail(hist, Polled(polled));
      agents := newRows;
      hist := hist + [Polled(polled)];
    }

    method RecordPollError()
      requires Valid()
      modifies `hist
      ensures Valid() && hist == old(hist) + [PollFailed]
    {
      hide TableAgrees, AllLines, LastN;
      forall agent
        ensures TableAgrees(hist + [PollFailed], agents, agent)
      {
        FailureAgrees(hist, agents, agent);
      }
      QuietTail(hist, PollFailed);
      hist := hist + [PollFailed];
    }

    method ApplyEvent(frame: Frame)
      requires Valid()
      modifies this
      ensures Valid() && hist == old(hist) + [Streamed(frame)]
    {
      hide TableAgrees, AllLines, LineOf, LastN, Label, ShortTime;
      var text := Label(frame);
      var k := FirstRow(agents, AgentOf(frame));
      ghost var before := agents;
      if k < |agents| {
        agents := agents[k := agents[k].(lastEventLabel := Some(text),
                                         lastEventAt := Some(ShortTime(frame.at.GetOr("?"))))];
      }
      forall agent
        ensures TableAgrees(hist + [Streamed(frame)], agents, agent)
      {
        EventAgrees(hist, before, frame, agent);
      }
      ghost var lines := AllLines(hist);
      tail := tail + [LineOf(frame)];
      EventTail(hist, frame, tailSize);
      while |tail| > tailSize
        modifies `tail
        invariant LastN(tail, tailSize) == LastN(lines + [LineOf(frame)], tailSize)
      {
        PopFront(tail, tailSize);
        tail := tail[1..];
      }
      ShortIsWhole(tail, tailSize);
      hist := hist + [Streamed(frame)];
    }
  }

  /** The rows of a poll with the last events carried over. */
  function Inherited(rows: seq<AgentRow>, polled: seq<AgentRow>): (r: seq<AgentRow>)
    ensures |r| == |polled|
  {
    seq(|polled|, i requires 0 <= i < |polled| =>
      var k := FirstRow(rows, polled[i].agentId);
      if k < |rows|
      then polled[i].(lastEventLabel := rows[k].lastEventLabel, lastEventAt := rows[k].lastEventAt)
      else polled[i])
  }

  function Marked(rows: seq<AgentRow>, frame: Frame): seq<AgentRow> {
    var k := FirstRow(rows, AgentOf(frame));
    if k < |rows| then
      rows[k := rows[k].(lastEventLabel := Some(Label(frame)), lastEventAt := Some(ShortTime(frame.at.GetOr("?"))))]
    else rows
  }

  // ---------- Proofs ----------

  lemma EmptyAgrees()
    ensures forall agent :: TableAgrees([], [], agent)
  {
  }

  lemma SameIdsSameRow(a: seq<AgentRow>, b: seq<AgentRow>, agent: string)
    requires |a| == |b| && forall i :: 0 <= i < |a| ==> a[i].agentId == b[i].agentId
    ensures FirstRow(a, agent) == FirstRow(b, agent)
    ensures Present(a, agent) <==> Present(b, agent)
  {
    var i, j := FirstRow(a, agent), FirstRow(b, agent);
    if Present(a, agent) {
      var k :| 0 <= k < |a| && a[k].agentId == agent;
      assert b[k].agentId == agent;
    }
    if Present(b, agent) {
      var k :| 0 <= k < |b| && b[k].agentId == agent;
      assert a[k].agentId == agent;
    }
    if i < |a| {
      assert b[i].agentId == agent;
    }
    if j < |b| {
      assert a[j].agentId == agent;
    }
  }

  lemma PresentIffFound(rows: seq<AgentRow>, agent: string)
    ensures Present(rows, agent) <==> FirstRow(rows, agent) < |rows|
  {
  }

  /** How one more step changes which event counts. */
  lemma LatestAfterQuiet(hist: seq<Step>, step: Step, agent: string, j: nat)
    requires !IsEventOf(step, agent)
    ensures LatestSinceAppeared(hist + [step], agent, j)
            <==> LatestSinceAppeared(hist, agent, j) && (step.Polled? ==> Present(step.rows, agent))
  {
    hide Present;
    var hist' := hist + [step];
    if j < |hist| {
      assert hist'[..j] == hist[..j] && hist'[j] == hist[j];
      assert forall k :: 0 <= k < |hist| ==> hist'[k] == hist[k];
      assert hist'[|hist|] == step;
    }
  }

  lemma LatestAfterEvent(hist: seq<Step>, step: Step, agent: string, j: nat)
    requires IsEventOf(step, agent)
    ensures LatestSinceAppeared(hist + [step], agent, j) <==> j == |hist| && LastPollHas(hist, agent)
  {
    var hist' := hist + [step];
    assert hist'[|hist|] == step && hist'[..|hist|] == hist;
  }

  lemma LastPollAfter(hist: seq<Step>, step: Step, agent: string)
    ensures LastPollHas(hist + [step], agent)
            <==> if step.Polled? then Present(step.rows, agent) else LastPollHas(hist, agent)
  {
    assert (hist + [step])[..|hist|] == hist;
  }

  lemma PollAgrees(hist: seq<Step>, rows: seq<AgentRow>, polled: seq<AgentRow>, agent: string)
    requires TableAgrees(hist, rows, agent)
    requires forall i :: 0 <= i < |polled| ==> polled[i].lastEventLabel == polled[i].lastEventAt == None
    ensures TableAgrees(hist + [Polled(polled)], Inherited(rows, polled), agent)
  {
    hide LatestSinceAppeared, LastPollHas, Label, ShortTime;
    var rows', hist' := Inherited(rows, polled), hist + [Polled(polled)];
    SameIdsSameRow(rows', polled, agent);
    PresentIffFound(polled, agent);
    LastPollAfter(hist, Polled(polled), agent);
    var k := FirstRow(polled, agent);
    assert ShownFor(rows', agent) == if k < |polled| then ShownFor(rows, agent) else NO_EVENT;
    forall j: nat
      ensures LatestSinceAppeared(hist', agent, j) <==> LatestSinceAppeared(hist, agent, j) && Present(polled, agent)
    {
      LatestAfterQuiet(hist, Polled(polled), agent, j);
    }
    forall j: nat | LatestSinceAppeared(hist, agent, j)
      ensures j < |hist| && hist'[j] == hist[j]
    {
      LatestIsIn(hist, agent, j);
    }
  }

  lemma LatestIsIn(hist: seq<Step>, agent: string, j: nat)
    requires LatestSinceAppeared(hist, agent, j)
    ensures j < |hist| && hist[j].Streamed?
  {
  }

  lemma FailureAgrees(hist: seq<Step>, rows: seq<AgentRow>, agent: string)
    requires TableAgrees(hist, rows, agent)
    ensures TableAgrees(hist + [PollFailed], rows, agent)
  {
    QuietAgrees(hist, rows, PollFailed, agent);
  }

  lemma QuietAgrees(hist: seq<Step>, rows: seq<AgentRow>, step: Step, agent: string)
    requires TableAgrees(hist, rows, agent) && !step.Polled? && !IsEventOf(step, agent)
    ensures TableAgrees(hist + [step], rows, agent)
  {
    hide LatestSinceAppeared, LastPollHas, Label, ShortTime, ShownFor;
    var hist' := hist + [step];
    LastPollAfter(hist, step, agent);
    forall j: nat
      ensures LatestSinceAppeared(hist', agent, j) <==> LatestSinceAppeared(hist, agent, j)
      ensures LatestSinceAppeared(hist, agent, j) ==> j < |hist| && hist'[j] == hist[j]
    {
      LatestAfterQuiet(hist, step, agent, j);
      if LatestSinceAppeared(hist, agent, j) {
        LatestIsIn(hist, agent, j);
      }
    }
  }

  lemma EventAgrees(hist: seq<Step>, rows: seq<AgentRow>, frame: Frame, agent: string)
    requires TableAgrees(hist, rows, agent)
    ensures TableAgrees(hist + [Streamed(frame)], Marked(rows, frame), agent)
  {
    hide LatestSinceAppeared, LastPollHas, Label, ShortTime;
    var rows', step := Marked(rows, frame), Streamed(frame);
    var hist' := hist + [step];
    SameIdsSameRow(rows', rows, agent);
    LastPollAfter(hist, step, agent);
    PresentIffFound(rows, agent);
    if AgentOf(frame) == agent {
      forall j: nat
        ensures LatestSinceAppeared(hist', agent, j) <==> j == |hist| && LastPollHas(hist, agent)
      {
        LatestAfterEvent(hist, step, agent, j);
      }
      assert hist'[|hist|] == step;
    } else {
      var k := FirstRow(rows, agent);
      assert ShownFor(rows', agent) == ShownFor(rows, agent);
      QuietAgrees(hist, rows, step, agent);
    }
  }

  lemma LinesAfter(hist: seq<Step>, step: Step)
    ensures AllLines(hist + [step]) == AllLines(hist) + if step.Streamed? then [LineOf(step.frame)] else []
  {
    hide LineOf;
    assert (hist + [step])[..|hist|] == hist;
  }

  lemma QuietTail(hist: seq<Step>, step: Step)
    requires !step.Streamed?
    ensures AllLines(hist + [step]) == AllLines(hist)
  {
    LinesAfter(hist, step);
  }

  /** Appending to the tail and to the whole stream leaves the same last lines. */
  lemma EventTail(hist: seq<Step>, frame: Frame, n: nat)
    ensures AllLines(hist + [Streamed(frame)]) == AllLines(hist) + [LineOf(frame)]
    ensures LastN(LastN(AllLines(hist), n) + [LineOf(frame)], n) == LastN(AllLines(hist) + [LineOf(frame)], n)
  {
    hide LineOf, AllLines;
    LinesAfter(hist, Streamed(frame));
  }

  lemma PopFront<T>(s: seq<T>, n: nat)
    requires |s| > n
    ensures LastN(s[1..], n) == LastN(s, n)
  {
  }

  lemma ShortIsWhole<T>(s: seq<T>, n: nat)
    requires |s| <= n
    ensures LastN(s, n) == s
  {
  }

  lemma {:induction false} LinesConcat(hist: seq<Step>, later: seq<Step>)
    ensures AllLines(hist + later) == AllLines(hist) + AllLines(later)
  {
    hide LineOf;
    if later == [] {
      assert hist + later == hist;
    } else {
      var front, last := later[..|later| - 1], later[|later| - 1];
      assert hist + later == (hist + front) + [last] && later == front + [last];
      LinesConcat(hist, front);
      LinesAfter(hist + front, last);
      LinesAfter(front, last);
    }
  }

  lemma LastOfLonger<T>(s: seq<T>, t: seq<T>, n: nat)
    requires n <= |t|
    ensures LastN(s + t, n) == LastN(t, n)
  {
    assert |t| <= n ==> (s + t)[|s + t| - n..] == t;
  }

  /** Once as many events as the tail holds have come in, whatever polls, failures and events
      came before them no longer shows. */
  lemma TailForgets(hist: seq<Step>, other: seq<Step>, later: seq<Step>, n: nat)
    requires n <= |AllLines(later)|
    ensures LastN(AllLines(hist + later), n) == LastN(AllLines(other + later), n)
  {
    hide AllLines, LastN;
    LinesConcat(hist, later);
    LinesConcat(other, later);
    LastOfLonger(AllLines(hist), AllLines(later), n);
    LastOfLonger(AllLines(other), AllLines(later), n);
  }

  // ---------- What the text says ----------

  /** The part of a line that is padded to ten characters. */
  function Kind(f: Frame): string {
    match f.kind
    case None => "?"
    case Some(kind) =>
      if kind == "unit_restarted" then "RESTART"
      else if kind == "unit_dead_detected" then "DEAD"
      else if kind == "supervise_paused" then "PAUSED"
      else if kind == "supervise_resumed" then "RESUMED"
      else if kind == "nightly_restart_fired" then "NIGHTLY"
      else kind
  }

  /** A line of the tail names the time, the kind of the event in ten columns and the agent; that
      of a restart goes on with its reason and its result. */
  lemma LinesSay(f: Frame)
    ensures var front := ShortTime(f.at.GetOr("?")) + "  " + Pad(Kind(f), 10) + " " + f.agentId.GetOr("?");
            LineOf(f).text == if f.kind == Some("unit_restarted")
                              then front + " reason=" + f.reason.GetOr("?") + " result=" + f.result.GetOr("?")
                              else front
    ensures LineOf(f).color == match f.kind
                               case Some("unit_restarted") => Yellow
                               case Some("unit_dead_detected") => Red
                               case Some("supervise_paused") => Cyan
                               case Some("supervise_resumed") => Cyan
                               case Some("nightly_restart_fired") => Magenta
                               case _ => Gray
  {
    hide ShortTime;
    Paddings();
    var time, agent := ShortTime(f.at.GetOr("?")), f.agentId.GetOr("?");
    assert time + "  RESTART    " == time + "  " + "RESTART   " + " ";
    assert time + "  DEAD       " == time + "  " + "DEAD      " + " ";
    assert time + "  PAUSED     " == time + "  " + "PAUSED    " + " ";
    assert time + "  RESUMED    " == time + "  " + "RESUMED   " + " ";
    assert time + "  NIGHTLY    " == time + "  " + "NIGHTLY   " + " ";
  }

  lemma Paddings()
    ensures Pad("RESTART", 10) == "RESTART   " && Pad("DEAD", 10) == "DEAD      " && Pad("PAUSED", 10) == "PAUSED    "
    ensures Pad("RESUMED", 10) == "RESUMED   " && Pad("NIGHTLY", 10) == "NIGHTLY   "
  {
  }

  /** The table labels the same events with the same words, a restart with its result, and any
      other event with its kind in capitals. */
  lemma LabelsSay(f: Frame)
    ensures Label(f) == match f.kind
                        case None => "?"
                        case Some(kind) =>
                          if kind == "unit_restarted" then Kind(f) + "/" + f.result.GetOr("?")
                          else if Kind(f) != kind then Kind(f)
                          else Upper(kind)
  {
    KindsDiffer();
    assert Upper("?") == "?";
    assert "RESTART" + "/" == "RESTART/";
  }

  lemma KindsDiffer()
    ensures |"unit_restarted"| != |"RESTART"| && |"unit_dead_detected"| != |"DEAD"|
    ensures |"supervise_paused"| != |"PAUSED"| && |"supervise_resumed"| != |"RESUMED"|
    ensures |"nightly_restart_fired"| != |"NIGHTLY"|
  {
  }

  lemma CapitalsKeepTheirPlace(k: nat)
    requires k < 26
    ensures UpperChar("abcdefghijklmnopqrstuvwxyz"[k]) == "ABCDEFGHIJKLMNOPQRSTUVWXYZ"[k]
    ensures forall c :: c !in "abcdefghijklmnopqrstuvwxyz" ==> UpperChar(c) == c
  {
    forall c | 'a' <= c <= 'z'
      ensures c in "abcdefghijklmnopqrstuvwxyz"
    {
      assert "abcdefghijklmnopqrstuvwxyz"[c as int - 97] == c;
    }
  }

  lemma {:induction false} FindFirst(s: string, c: char, k: nat)
    requires k <= |s| && c !in s[..k] && (k < |s| ==> s[k] == c)
    ensures Find(s, c) == k
  {
    if k > 0 {
      assert s[0] == s[..k][0] && s[1..][..k - 1] == s[..k][1..];
      FindFirst(s[1..], c, k - 1);
    }
  }

  /** Of a timestamp only the time of day is shown, without its fraction or zone. */
  lemma TimeOfDay(date: string, time: string, fraction: string)
    requires 'T' !in date && 'T' !in time && 'T' !in fraction && '.' !in time && time != [] && time[|time| - 1] != 'Z'
    ensures ShortTime(date + "T" + time + "." + fraction) == time
    ensures ShortTime(date + "T" + time + "Z") == time
    ensures ShortTime(date) == date
  {
    FindFirst(date, 'T', |date|);
    AfterDate(date, time + "." + fraction);
    AfterDate(date, time + "Z");
    assert date + "T" + (time + "." + fraction) == date + "T" + time + "." + fraction;
    assert date + "T" + (time + "Z") == date + "T" + time + "Z";
    var a, b := time + "." + fraction, time + "Z";
    assert 'T' !in a && 'T' !in b && '.' !in b;
    assert a[..|a|] == a && b[..|b|] == b && a[..|time|] == time;
    FindFirst(a, 'T', |a|);
    FindFirst(b, 'T', |b|);
    FindFirst(a, '.', |time|);
    FindFirst(b, '.', |b|);
    assert b[..|b| - 1] == time;
  }

  lemma AfterDate(date: string, rest: string)
    requires 'T' !in date
    ensures var at := date + "T" + rest; Find(at, 'T') == |date| < |at| && at[|date| + 1..] == rest
  {
    var at := date + "T" + rest;
    assert at[..|date|] == date && at[|date|] == 'T';
    FindFirst(at, 'T', |date|);
  }
}
