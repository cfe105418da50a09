/** The MCP stdio server: a loop that answers inbound messages one at a time while background
    tasks retry the tool warm-up and queue notifications. */
module McpServer {
  import opened Options

  // ---------- Tools cache ----------

  datatype Tool = Tool(name: string, schema: string)

  /** What the backend says to a fetch. */
  datatype Answer = Tools(list: seq<Tool>) | Failed

  datatype Cache = Cache(tools: seq<Tool>, fetchedAt: Option<nat>)

  const EMPTY_CACHE := Cache([], None)

  /** The two gateway-local tools. */
  const META := [Tool("discover", "path, deep"), Tool("exec", "args")]

  predicate Fresh(c: Cache, ttl: nat, now: nat) {
    c.fetchedAt.Some? && now - c.fetchedAt.value < ttl
  }

  predicate Usable(a: Answer) {
    a.Tools? && a.list != []
  }

  /** A warm-up or a retry stores what the backend returned unless that is nothing. */
  function Warmed(c: Cache, a: Answer, now: nat): Cache {
    if Usable(a) then Cache(a.list, Some(now)) else c
  }

  /** A fetch after a miss stores the backend's list, even an empty one, with the gateway tools. */
  function Fetched(c: Cache, a: Answer, now: nat): Cache {
    if a.Tools? then Cache(a.list + META, Some(now)) else c
  }

  /** What the fetch then returns. */
  function Listing(a: Answer): seq<Tool> {
    if a.Tools? then a.list + META else META
  }

  class ToolsCache {
    var tools: seq<Tool>
    var fetchedAt: Option<nat>
    const ttl: nat

    ghost function Contents(): Cache
      reads this
    {
      Cache(tools, fetchedAt)
    }

    constructor (ttlSecs: nat)
      ensures Contents() == EMPTY_CACHE && ttl == ttlSecs
    {
      tools, fetchedAt, ttl := [], None, ttlSecs;
    }

    method Set(list: seq<Tool>, now: nat)
      modifies this
      ensures Contents() == Cache(list, Some(now))
    {
      tools, fetchedAt := list, Some(now);
    }

    /** The first half of a fetch, under the lock. */
    method Hit(now: nat) returns (hit: Option<seq<Tool>>)
      ensures hit == if Fresh(Contents(), ttl, now) then Some(tools) else None
    {
      if fetchedAt.Some? && now - fetchedAt.value < ttl {
        return Some(tools);
      }
      return None;
    }

    /** The second half, with the backend's answer. */
    method Store(a: Answer, now: nat) returns (list: seq<Tool>)
      modifies this
      ensures Contents() == Fetched(old(Contents()), a, now) && list == Listing(a)
      ensures a.Tools? ==> list == tools && list[..|list| - 2] == a.list
      ensures |list| >= 2 && list[|list| - 2].name == "discover" && list[|list| - 1].name == "exec"
    {
      match a
      case Tools(found) =>
        list := found + META;
        Set(list, now);
      case Failed =>
        list := META;
    }

    /** The background retry: sleep, ask, and double the delay up to thirty seconds. */
    method RetryWarm(answers: seq<Answer>, times: seq<nat>) returns (attempts: nat, slept: nat, warm: bool)
      requires |answers| == |times| == ATTEMPTS
      modifies this
      ensures warm <==> exists k :: 0 <= k < ATTEMPTS && Usable(answers[k])
      ensures Retried(answers, attempts, slept, warm) && slept <= 90
      ensures Contents() == if warm then Warmed(old(Contents()), answers[attempts - 1], times[attempts - 1])
                            else old(Contents())
    {
      hide Delay, SleepBefore;
      DelayStep(0);
      var delay := FIRST_DELAY;
      attempts, slept, warm := 0, 0, false;
      while attempts < ATTEMPTS
        invariant attempts <= ATTEMPTS && delay == Delay(attempts) && slept == SleepBefore(attempts)
        invariant Contents() == old(Contents())
        invariant forall k :: 0 <= k < attempts ==> !Usable(answers[k])
      {
        DelayStep(attempts);
        slept := slept + delay;
        attempts := attempts + 1;
        var a := answers[attempts - 1];
        if a.Tools? && a.list != [] {
          Set(a.list, times[attempts - 1]);
          warm := true;
          return;
        }
        delay := if delay * 2 < MAX_DELAY then delay * 2 else MAX_DELAY;
      }
    }
  }

  /** The first usable answer ends the attempts; without one they are all made. */
  ghost predicate Retried(answers: seq<Answer>, attempts: nat, slept: nat, warm: bool)
    requires |answers| == ATTEMPTS
  {
    && attempts <= ATTEMPTS && slept == SleepBefore(attempts)
    && (warm ==> 0 < attempts && Usable(answers[attempts - 1])
                 && forall k :: 0 <= k < attempts - 1 ==> !Usable(answers[k]))
    && (!warm ==> attempts == ATTEMPTS && forall k :: 0 <= k < attempts ==> !Usable(answers[k]))
  }

  const ATTEMPTS := 6
  const FIRST_DELAY := 2
  const MAX_DELAY := 30

  /** The sleep before attempt `n + 1`. */
  function Delay(n: nat): (d: nat)
    ensures n < ATTEMPTS ==> d == [2, 4, 8, 16, 30, 30][n]
  {
    if n == 0 then FIRST_DELAY
    else if Delay(n - 1) * 2 < MAX_DELAY then Delay(n - 1) * 2 else MAX_DELAY
  }

  /** All the sleep before and between the first `n` attempts. */
  function SleepBefore(n: nat): (r: nat)
    ensures n <= ATTEMPTS ==> r == [0, 2, 6, 14, 30, 60, 90][n]
  {
    if n == 0 then 0 else SleepBefore(n - 1) + Delay(n - 1)
  }

  lemma DelayStep(n: nat)
    ensures Delay(0) == FIRST_DELAY && SleepBefore(0) == 0
    ensures Delay(n + 1) == if Delay(n) * 2 < MAX_DELAY then Delay(n) * 2 else MAX_DELAY
    ensures SleepBefore(n + 1) == SleepBefore(n) + Delay(n)
  {
  }
}

/** The server as a state machine: the message loop, the backend and the retry tasks take
    steps in any order. */
module McpSession {
  import opened Options
  import opened McpServer
  import Framing = StdioFraming

  // ---------- Messages ----------

  datatype Id = NullId | Id(json: string)

  /** A message that is not JSON, or one with its `id` (if present), method and parameters. */
  datatype Message = Malformed | Message(id: Option<Id>, rpcMethod: string, version: Option<string>)

  datatype Kind = Initialize | Initialized | Cancelled | ToolsList | ToolsCall | Ping | Unknown

  function KindOf(m: Message): Kind {
    if m.Malformed? then Unknown
    else if m.rpcMethod == "initialize" then Initialize
    else if m.rpcMethod == "initialized" || m.rpcMethod == "notifications/initialized" then Initialized
    else if m.rpcMethod == "notifications/cancelled" then Cancelled
    else if m.rpcMethod == "tools/list" then ToolsList
    else if m.rpcMethod == "tools/call" then ToolsCall
    else if m.rpcMethod == "ping" then Ping
    else Unknown
  }

  datatype Body =
    | Capabilities(version: string) | Empty | ToolList(tools: seq<Tool>)
    | CallResult(text: string, isError: bool) | Error(code: int)

  datatype Outbound = Reply(id: Id, body: Body) | ListChanged

  /** The framing of the stdio reader and writer. */
  type Format = Framing.Format

  datatype Inbound = Inbound(message: Message, format: Format)

  /** `cause` is history: the inbound message this was written for, none for a background one. */
  datatype Written = Written(value: Outbound, format: Format, cause: Option<nat>)

  const LATEST := "2025-06-18"
  const LEGACY := "2024-11-05"

  function NegotiatedVersion(requested: Option<string>): string {
    if requested == Some(LATEST) || requested == Some(LEGACY) then requested.value else LATEST
  }

  function ReplyId(m: Message): Id {
    if m.Malformed? then NullId else m.id.GetOr(NullId)
  }

  /** Which messages are answered. */
  predicate Answered(m: Message) {
    m.Malformed? || match KindOf(m)
                    case Initialize | ToolsList | ToolsCall | Ping => true
                    case Initialized | Unknown => m.id.Some?
                    case Cancelled => false
  }

  // ---------- States and steps ----------

  const CHANNEL := 8

  /** A retry task: asleep until the next attempt, with its list to announce, or over. */
  datatype Task =
    | Sleeping(attempts: nat, delay: nat, wakeAt: nat, slept: nat)
    | Announcing(attempts: nat, slept: nat)
    | Over(attempts: nat, slept: nat)

  function Woken(now: nat): Task {
    Sleeping(0, FIRST_DELAY, now + FIRST_DELAY, 0)
  }

  /** `busy`: the last message received is still being dispatched. */
  datatype State = State(
    now: nat, ttl: nat, cache: Cache, tasks: seq<Task>, queued: nat, busy: bool,
    received: seq<Inbound>, output: seq<Written>)

  function Start(ttl: nat): State {
    State(0, ttl, EMPTY_CACHE, [], 0, false, [], [])
  }

  datatype Step =
    | Tick(seconds: nat)
    | Receive(inbound: Inbound)
    | BackendAnswers(answer: Answer)
    | CallReturns(text: string, isError: bool)
    | Attempt(task: nat, outcome: Answer)
    | Announce(announcer: nat)
    | Deliver

  function DoneCount(s: State): nat {
    if s.busy && s.received != [] then |s.received| - 1 else |s.received|
  }

  function SessionFormat(s: State): Format {
    if s.received == [] then Framing.ContentLength else s.received[|s.received| - 1].format
  }

  /** Writes what a message causes: its reply, if it has one, and then the notification. */
  function Finish(s: State, body: Body): State
    requires s.received != []
  {
    var i := |s.received| - 1;
    var m, format := s.received[i].message, s.received[i].format;
    var reply := if Answered(m) then [Written(Reply(ReplyId(m), body), format, Some(i))] else [];
    var changed := if KindOf(m) == Initialized then [Written(ListChanged, format, Some(i))] else [];
    s.(busy := false, output := s.output + reply + changed)
  }

  function Received(s: State, inbound: Inbound): State {
    var t := s.(received := s.received + [inbound], busy := true);
    var m := inbound.message;
    match KindOf(m)
    case Initialize => Finish(t, Capabilities(NegotiatedVersion(m.version)))
    case Ping => Finish(t, Empty)
    case Cancelled => Finish(t, Empty)
    case Unknown => Finish(t, Error(if m.Malformed? then -32700 else -32601))
    case ToolsList => if Fresh(s.cache, s.ttl, s.now) then Finish(t, ToolList(s.cache.tools)) else t
    case Initialized => t
    case ToolsCall => t
  }

  function Answering(s: State, a: Answer): State
    requires s.received != []
  {
    match KindOf(s.received[|s.received| - 1].message)
    case Initialized =>
      var t := s.(cache := Warmed(s.cache, a, s.now),
                  tasks := if Usable(a) then s.tasks else s.tasks + [Woken(s.now)]);
      Finish(t, Empty)
    case ToolsList => Finish(s.(cache := Fetched(s.cache, a, s.now)), ToolList(Listing(a)))
    case _ => s
  }

  function Attempted(t: Task, a: Answer, now: nat): Task
    requires t.Sleeping?
  {
    var attempts, slept := t.attempts + 1, t.slept + t.delay;
    var delay := if t.delay * 2 < MAX_DELAY then t.delay * 2 else MAX_DELAY;
    if Usable(a) then Announcing(attempts, slept)
    else if attempts == ATTEMPTS then Over(attempts, slept)
    else Sleeping(attempts, delay, now + delay, slept)
  }

  /** A step; one that cannot be taken in this state leaves it alone. */
  function Apply(s: State, step: Step): State {
    match step
    case Tick(seconds) => s.(now := s.now + seconds)
    case Receive(inbound) => if s.busy then s else Received(s, inbound)
    case BackendAnswers(a) => if s.busy && s.received != [] then Answering(s, a) else s
    case CallReturns(text, isError) =>
      if s.busy && s.received != [] && KindOf(s.received[|s.received| - 1].message) == ToolsCall
      then Finish(s, CallResult(text, isError)) else s
    case Attempt(i, a) =>
      if i < |s.tasks| && s.tasks[i].Sleeping? && s.tasks[i].wakeAt <= s.now
      then s.(cache := Warmed(s.cache, a, s.now), tasks := s.tasks[i := Attempted(s.tasks[i], a, s.now)]) else s
    case Announce(i) =>
      if i < |s.tasks| && s.tasks[i].Announcing? && s.queued < CHANNEL
      then s.(queued := s.queued + 1, tasks := s.tasks[i := Over(s.tasks[i].attempts, s.tasks[i].slept)]) else s
    case Deliver =>
      if !s.busy && s.queued > 0
      then s.(queued := s.queued - 1, output := s.output + [Written(ListChanged, SessionFormat(s), None)]) else s
  }

  function Run(s: State, steps: seq<Step>): State {
    if steps == [] then s else Apply(Run(s, steps[..|steps| - 1]), steps[|steps| - 1])
  }

  // ---------- What every run keeps ----------

  function Replies(out: seq<Written>, i: nat): nat {
    if out == [] then 0
    else Replies(out[..|out| - 1], i) + if out[|out| - 1].cause == Some(i) && out[|out| - 1].value.Reply? then 1 else 0
  }

  function Changes(out: seq<Written>, i: nat): nat {
    if out == [] then 0
    else
      var last := out[|out| - 1];
      Changes(out[..|out| - 1], i) + if last.cause == Some(i) && last.value.ListChanged? then 1 else 0
  }

  function Background(out: seq<Written>): nat {
    if out == [] then 0 else Background(out[..|out| - 1]) + if out[|out| - 1].cause.None? then 1 else 0
  }

  /** Message `i` has its one reply, and its one notification, exactly when it is due one and
      its dispatch is over. */
  predicate CountsRight(s: State, i: nat) {
    && Replies(s.output, i) == (if i < DoneCount(s) && Answered(s.received[i].message) then 1 else 0)
    && Changes(s.output, i) == (if i < DoneCount(s) && KindOf(s.received[i].message) == Initialized then 1 else 0)
  }

  /** What is written carries the id and the framing of its message. */
  predicate WellAddressed(s: State, k: nat)
    requires k < |s.output|
  {
    var w := s.output[k];
    match w.cause
    case None => w.value.ListChanged?
    case Some(i) => i < DoneCount(s) && w.format == s.received[i].format
                    && (w.value.Reply? ==> w.value.id == ReplyId(s.received[i].message))
  }

  /** Replies come in arrival order, each before the notification it causes. */
  predicate InOrder(a: Written, b: Written) {
    a.cause.Some? && b.cause.Some? ==>
      a.cause.value < b.cause.value || (a.cause == b.cause && a.value.Reply? && b.value.ListChanged?)
  }

  predicate EndsWithMeta(list: seq<Tool>) {
    |list| >= 2 && list[|list| - 2..] == META
  }

  /** A list in the cache is never empty. */
  predicate CacheSound(c: Cache) {
    c.fetchedAt.Some? ==> c.tools != []
  }

  predicate TaskSound(t: Task) {
    && t.slept == SleepBefore(t.attempts)
    && match t
       case Sleeping(n, delay, _, _) => n < ATTEMPTS && delay == Delay(n)
       case Announcing(n, _) => 0 < n <= ATTEMPTS
       case Over(n, _) => 0 < n <= ATTEMPTS
  }

  ghost predicate Ordered(s: State) {
    && (s.busy ==> s.received != [])
    && (forall i: nat :: CountsRight(s, i))
    && (forall k :: 0 <= k < |s.output| ==> WellAddressed(s, k))
    && (forall k, l :: 0 <= k < l < |s.output| ==> InOrder(s.output[k], s.output[l]))
  }

  predicate ListsSound(s: State) {
    && CacheSound(s.cache)
    && forall k :: 0 <= k < |s.output| && s.output[k].value.Reply? && s.output[k].value.body.ToolList?
         ==> s.output[k].value.body.tools != []
  }

  function OverCount(tasks: seq<Task>): nat {
    if tasks == [] then 0 else OverCount(tasks[..|tasks| - 1]) + if tasks[|tasks| - 1].Over? then 1 else 0
  }

  predicate TasksSound(s: State) {
    && (forall i :: 0 <= i < |s.tasks| ==> TaskSound(s.tasks[i]))
    && Background(s.output) + s.queued <= OverCount(s.tasks)
    && s.queued <= CHANNEL
  }

  // ---------- Proofs: order and addresses ----------

  lemma CountSnoc(out: seq<Written>, w: Written, i: nat)
    ensures Replies(out + [w], i) == Replies(out, i) + if w.cause == Some(i) && w.value.Reply? then 1 else 0
    ensures Changes(out + [w], i) == Changes(out, i) + if w.cause == Some(i) && w.value.ListChanged? then 1 else 0
    ensures Background(out + [w]) == Background(out) + if w.cause.None? then 1 else 0
  {
    assert (out + [w])[..|out|] == out;
  }

  /** The writes of a finished dispatch, as one or two appends. */
  lemma FinishCounts(s: State, body: Body, i: nat)
    requires s.received != []
    ensures var t := Finish(s, body);
            var n := |s.received| - 1;
            && Replies(t.output, i)
                 == Replies(s.output, i) + (if i == n && Answered(s.received[n].message) then 1 else 0)
            && Changes(t.output, i)
                 == Changes(s.output, i) + (if i == n && KindOf(s.received[n].message) == Initialized then 1 else 0)
            && Background(t.output) == Background(s.output)
  {
    hide KindOf, Answered, Replies, Changes, Background;
    var n := |s.received| - 1;
    var m, format := s.received[n].message, s.received[n].format;
    var out := s.output;
    if Answered(m) {
      CountSnoc(out, Written(Reply(ReplyId(m), body), format, Some(n)), i);
      out := out + [Written(Reply(ReplyId(m), body), format, Some(n))];
    }
    if KindOf(m) == Initialized {
      CountSnoc(out, Written(ListChanged, format, Some(n)), i);
      out := out + [Written(ListChanged, format, Some(n))];
    }
    assert out == Finish(s, body).output;
  }

  /** Finishing the dispatch of the last message keeps everything in order. */
  lemma FinishOrdered(s: State, body: Body)
    requires Ordered(s) && s.busy
    ensures Ordered(Finish(s, body))
  {
    hide KindOf, Answered, Replies, Changes;
    var t := Finish(s, body);
    forall i: nat
      ensures CountsRight(t, i)
    {
      assert CountsRight(s, i);
      FinishCounts(s, body, i);
    }
    FinishAddresses(s, body);
    FinishInOrder(s, body);
  }

  lemma FinishAddresses(s: State, body: Body)
    requires s.busy && s.received != [] && forall k :: 0 <= k < |s.output| ==> WellAddressed(s, k)
    ensures var t := Finish(s, body); forall k :: 0 <= k < |t.output| ==> WellAddressed(t, k)
  {
    hide KindOf, Answered;
    var t := Finish(s, body);
    forall k | 0 <= k < |t.output|
      ensures WellAddressed(t, k)
    {
      if k < |s.output| {
        assert WellAddressed(s, k) && t.output[k] == s.output[k];
      }
    }
  }

  lemma FinishInOrder(s: State, body: Body)
    requires s.busy && s.received != [] && forall k :: 0 <= k < |s.output| ==> WellAddressed(s, k)
    requires forall k, l :: 0 <= k < l < |s.output| ==> InOrder(s.output[k], s.output[l])
    ensures var t := Finish(s, body); forall k, l :: 0 <= k < l < |t.output| ==> InOrder(t.output[k], t.output[l])
  {
    hide KindOf, Answered;
    var t := Finish(s, body);
    forall k, l | 0 <= k < l < |t.output|
      ensures InOrder(t.output[k], t.output[l])
    {
      if k < |s.output| {
        assert WellAddressed(s, k) && t.output[k] == s.output[k];
        if l < |s.output| {
          assert t.output[l] == s.output[l];
        }
      }
    }
  }

  /** The state after reading a message and before anything is written for it. */
  lemma ReadOrdered(s: State, inbound: Inbound)
    requires Ordered(s) && !s.busy
    ensures Ordered(s.(received := s.received + [inbound], busy := true))
  {
    hide KindOf, Answered, Replies, Changes;
    var t := s.(received := s.received + [inbound], busy := true);
    forall i: nat
      ensures CountsRight(t, i)
    {
      assert CountsRight(s, i);
    }
    forall k | 0 <= k < |t.output|
      ensures WellAddressed(t, k)
    {
      assert WellAddressed(s, k);
    }
  }

  lemma DeliverOrdered(s: State, w: Written)
    requires Ordered(s) && !s.busy && w.cause.None? && w.value.ListChanged?
    ensures Ordered(s.(output := s.output + [w]))
  {
    hide KindOf, Answered, Replies, Changes;
    var t := s.(output := s.output + [w]);
    forall i: nat
      ensures CountsRight(t, i)
    {
      assert CountsRight(s, i);
      CountSnoc(s.output, w, i);
    }
    forall k | 0 <= k < |t.output|
      ensures WellAddressed(t, k)
    {
      if k < |s.output| {
        assert WellAddressed(s, k) && t.output[k] == s.output[k];
      }
    }
  }

  /** Only these four parts of a state matter to the order of what is written. */
  lemma OrderedFrame(s: State, t: State)
    requires Ordered(s) && t.busy == s.busy && t.received == s.received && t.output == s.output
    ensures Ordered(t)
  {
    hide KindOf, Answered, Replies, Changes;
    forall i: nat
      ensures CountsRight(t, i)
    {
      assert CountsRight(s, i);
    }
    forall k | 0 <= k < |t.output|
      ensures WellAddressed(t, k)
    {
      assert WellAddressed(s, k);
    }
  }

  lemma AnsweringOrdered(s: State, a: Answer)
    requires Ordered(s) && s.busy && s.received != []
    ensures Ordered(Answering(s, a))
  {
    hide Ordered, Finish, Warmed, Fetched, Listing;
    match KindOf(s.received[|s.received| - 1].message)
    case Initialized =>
      var t := s.(cache := Warmed(s.cache, a, s.now),
                  tasks := if Usable(a) then s.tasks else s.tasks + [Woken(s.now)]);
      OrderedFrame(s, t);
      FinishOrdered(t, Empty);
    case ToolsList =>
      var t := s.(cache := Fetched(s.cache, a, s.now));
      OrderedFrame(s, t);
      FinishOrdered(t, ToolList(Listing(a)));
    case _ =>
  }

  lemma StepOrdered(s: State, step: Step)
    requires Ordered(s)
    ensures Ordered(Apply(s, step))
  {
    hide Ordered, Finish, KindOf, Answering, Warmed, Attempted, SessionFormat;
    var t := Apply(s, step);
    match step
    case Receive(inbound) =>
      if !s.busy {
        ReadOrdered(s, inbound);
        var r := s.(received := s.received + [inbound], busy := true);
        forall body
          ensures Ordered(Finish(r, body))
        {
          FinishOrdered(r, body);
        }
      }
    case BackendAnswers(a) =>
      if s.busy && s.received != [] {
        AnsweringOrdered(s, a);
      }
    case CallReturns(text, isError) =>
      if t != s {
        FinishOrdered(s, CallResult(text, isError));
      }
    case Deliver =>
      if t != s {
        var w := Written(ListChanged, SessionFormat(s), None);
        DeliverOrdered(s, w);
        OrderedFrame(s.(output := s.output + [w]), t);
      }
    case _ => OrderedFrame(s, t);
  }

  lemma {:induction false} RunOrdered(ttl: nat, steps: seq<Step>)
    ensures Ordered(Run(Start(ttl), steps))
  {
    hide Ordered, Apply;
    if steps == [] {
      StartOrdered(ttl);
    } else {
      RunOrdered(ttl, steps[..|steps| - 1]);
      StepOrdered(Run(Start(ttl), steps[..|steps| - 1]), steps[|steps| - 1]);
    }
  }

  lemma StartOrdered(ttl: nat)
    ensures Ordered(Start(ttl))
  {
    forall i: nat
      ensures CountsRight(Start(ttl), i)
    {
    }
  }

  // ---------- Proofs: lists, retries and notifications ----------

  lemma FinishLists(s: State, body: Body)
    requires ListsSound(s) && s.received != [] && (body.ToolList? ==> body.tools != [])
    ensures ListsSound(Finish(s, body))
  {
    hide KindOf, Answered, CacheSound;
    var t := Finish(s, body);
    forall k | 0 <= k < |t.output| && t.output[k].value.Reply? && t.output[k].value.body.ToolList?
      ensures t.output[k].value.body.tools != []
    {
      if k < |s.output| {
        assert t.output[k] == s.output[k];
      }
    }
  }

  lemma CacheStaysSound(c: Cache, a: Answer, now: nat)
    requires CacheSound(c)
    ensures CacheSound(Warmed(c, a, now)) && CacheSound(Fetched(c, a, now))
    ensures EndsWithMeta(Listing(a))
  {
    if a.Tools? {
      var list := a.list + META;
      assert list[|list| - 2..] == META;
    }
  }

  lemma StepLists(s: State, step: Step)
    requires ListsSound(s)
    ensures ListsSound(Apply(s, step))
  {
    hide KindOf, Finish, CacheSound, Warmed, Fetched, Listing, Attempted, SessionFormat, EndsWithMeta;
    match step
    case Receive(inbound) =>
      if !s.busy {
        FreshIsSet(s.cache, s.ttl, s.now);
        var r := s.(received := s.received + [inbound], busy := true);
        forall body: Body | body.ToolList? ==> body.tools != []
          ensures ListsSound(Finish(r, body))
        {
          FinishLists(r, body);
        }
      }
    case BackendAnswers(a) =>
      if s.busy && s.received != [] {
        CacheStaysSound(s.cache, a, s.now);
        var tasks := if Usable(a) then s.tasks else s.tasks + [Woken(s.now)];
        FinishLists(s.(cache := Warmed(s.cache, a, s.now), tasks := tasks), Empty);
        assert Listing(a) != [] by { ListingNonempty(a); }
        FinishLists(s.(cache := Fetched(s.cache, a, s.now)), ToolList(Listing(a)));
      }
    case CallReturns(text, isError) =>
      if s.received != [] {
        FinishLists(s, CallResult(text, isError));
      }
    case Attempt(i, a) => CacheStaysSound(s.cache, a, s.now);
    case _ =>
  }

  lemma FreshIsSet(c: Cache, ttl: nat, now: nat)
    requires CacheSound(c)
    ensures Fresh(c, ttl, now) ==> c.tools != []
  {
  }

  lemma ListingNonempty(a: Answer)
    ensures Listing(a) != []
  {
  }

  lemma OverSnoc(tasks: seq<Task>, t: Task)
    ensures OverCount(tasks + [t]) == OverCount(tasks) + if t.Over? then 1 else 0
  {
    assert (tasks + [t])[..|tasks|] == tasks;
  }

  lemma {:induction false} OverUpdate(tasks: seq<Task>, i: nat, t: Task)
    requires i < |tasks| && !tasks[i].Over?
    ensures OverCount(tasks[i := t]) == OverCount(tasks) + if t.Over? then 1 else 0
  {
    var n := |tasks| - 1;
    var after := tasks[i := t];
    if i == n {
      assert after[..n] == tasks[..n];
    } else {
      OverUpdate(tasks[..n], i, t);
      assert after[..n] == tasks[..n][i := t];
    }
  }

  lemma AttemptSound(t: Task, a: Answer, now: nat)
    requires t.Sleeping? && TaskSound(t)
    ensures TaskSound(Attempted(t, a, now))
  {
  }

  lemma FinishSound(s: State, body: Body)
    requires TasksSound(s) && s.received != []
    ensures TasksSound(Finish(s, body))
  {
    hide TaskSound, OverCount, Background, KindOf, Answered;
    FinishCounts(s, body, 0);
    FinishTasks(s, body);
  }

  lemma WokenSound(s: State, cache: Cache)
    requires TasksSound(s)
    ensures TasksSound(s.(cache := cache)) && TasksSound(s.(cache := cache, tasks := s.tasks + [Woken(s.now)]))
  {
    OverSnoc(s.tasks, Woken(s.now));
  }

  lemma AnsweringTasks(s: State, a: Answer)
    requires TasksSound(s) && s.received != []
    ensures TasksSound(Answering(s, a))
  {
    hide TasksSound, Finish, Warmed, Fetched, Listing;
    var m := s.received[|s.received| - 1].message;
    if KindOf(m) == Initialized {
      WokenSound(s, Warmed(s.cache, a, s.now));
      var tasks := if Usable(a) then s.tasks else s.tasks + [Woken(s.now)];
      FinishSound(s.(cache := Warmed(s.cache, a, s.now), tasks := tasks), Empty);
    } else if KindOf(m) == ToolsList {
      WokenSound(s, Fetched(s.cache, a, s.now));
      FinishSound(s.(cache := Fetched(s.cache, a, s.now)), ToolList(Listing(a)));
    }
  }

  lemma ReceivedTasks(s: State, inbound: Inbound)
    requires TasksSound(s)
    ensures TasksSound(Received(s, inbound))
  {
    hide KindOf, Answered, TaskSound;
    var r := s.(received := s.received + [inbound], busy := true);
    forall body
      ensures Background(Finish(r, body).output) == Background(s.output)
    {
      FinishCounts(r, body, 0);
    }
  }

  lemma StepTasks(s: State, step: Step)
    requires TasksSound(s)
    ensures TasksSound(Apply(s, step))
  {
    hide KindOf, Finish, TaskSound, Attempted, Received, Answering, Warmed, SessionFormat, OverCount;
    var t := Apply(s, step);
    match step
    case Receive(inbound) => ReceivedTasks(s, inbound);
    case BackendAnswers(a) =>
      if s.received != [] {
        AnsweringTasks(s, a);
      }
    case CallReturns(text, isError) =>
      if s.received != [] {
        FinishCounts(s, CallResult(text, isError), 0);
        FinishTasks(s, CallResult(text, isError));
      }
    case Attempt(i, a) =>
      if i < |s.tasks| && s.tasks[i].Sleeping? {
        AttemptSound(s.tasks[i], a, s.now);
        OverUpdate(s.tasks, i, Attempted(s.tasks[i], a, s.now));
      }
    case Announce(i) =>
      if i < |s.tasks| && s.tasks[i].Announcing? {
        var over := Over(s.tasks[i].attempts, s.tasks[i].slept);
        assert TaskSound(over) by { AnnouncedSound(s.tasks[i]); }
        OverUpdate(s.tasks, i, over);
      }
    case Deliver => CountSnoc(s.output, Written(ListChanged, SessionFormat(s), None), 0);
    case Tick(_) =>
  }

  lemma FinishTasks(s: State, body: Body)
    requires s.received != []
    ensures Finish(s, body).tasks == s.tasks && Finish(s, body).queued == s.queued
  {
  }

  lemma AnnouncedSound(t: Task)
    requires t.Announcing? && TaskSound(t)
    ensures TaskSound(Over(t.attempts, t.slept))
  {
  }

  lemma {:induction false} RunSound(ttl: nat, steps: seq<Step>)
    ensures ListsSound(Run(Start(ttl), steps)) && TasksSound(Run(Start(ttl), steps))
  {
    hide ListsSound, TasksSound, Apply;
    if steps == [] {
      assert ListsSound(Start(ttl)) && TasksSound(Start(ttl)) by { StartSound(ttl); }
    } else {
      RunSound(ttl, steps[..|steps| - 1]);
      StepLists(Run(Start(ttl), steps[..|steps| - 1]), steps[|steps| - 1]);
      StepTasks(Run(Start(ttl), steps[..|steps| - 1]), steps[|steps| - 1]);
    }
  }

  lemma StartSound(ttl: nat)
    ensures ListsSound(Start(ttl)) && TasksSound(Start(ttl))
  {
  }

  // ---------- What a session guarantees ----------

  predicate IsReplyTo(s: State, k: nat, i: nat) {
    k < |s.output| && s.output[k].cause == Some(i) && s.output[k].value.Reply?
  }

  /** A count of one is one place. */
  lemma {:induction false} CountedReply(out: seq<Written>, i: nat) returns (k: nat)
    requires Replies(out, i) > 0
    ensures k < |out| && out[k].cause == Some(i) && out[k].value.Reply?
  {
    var n := |out| - 1;
    if out[n].cause == Some(i) && out[n].value.Reply? {
      k := n;
    } else {
      k := CountedReply(out[..n], i);
    }
  }

  /** Over every run: a request with an id, other than a cancellation, whose dispatch is over
      has exactly one reply, with its id and framing; requests are answered in arrival order,
      and the notification a request causes comes after its reply. */
  lemma EveryRequestAnsweredOnce(ttl: nat, steps: seq<Step>, i: nat)
    requires var s := Run(Start(ttl), steps);
             i < DoneCount(s) && s.received[i].message.Message? && s.received[i].message.id.Some?
             && KindOf(s.received[i].message) != Cancelled
    ensures var s := Run(Start(ttl), steps);
            exists k: nat :: && IsReplyTo(s, k, i) && s.output[k].value.id == s.received[i].message.id.value
                        && s.output[k].format == s.received[i].format
                        && (forall l: nat :: IsReplyTo(s, l, i) ==> l == k)
                        && (forall l :: 0 <= l < k && s.output[l].cause.Some? ==> s.output[l].cause.value < i)
                        && (forall l :: k < l < |s.output| && s.output[l].cause.Some? ==>
                              || i < s.output[l].cause.value
                              || (s.output[l].cause == Some(i) && s.output[l].value.ListChanged?))
  {
    hide Run, KindOf, Replies, Changes;
    var s := Run(Start(ttl), steps);
    RunOrdered(ttl, steps);
    assert CountsRight(s, i);
    var k := CountedReply(s.output, i);
    assert WellAddressed(s, k) && IsReplyTo(s, k, i);
    forall l: nat | IsReplyTo(s, l, i)
      ensures l == k
    {
      assert k < l ==> InOrder(s.output[k], s.output[l]);
      assert l < k ==> InOrder(s.output[l], s.output[k]);
    }
    forall l | 0 <= l < k && s.output[l].cause.Some?
      ensures s.output[l].cause.value < i
    {
      assert InOrder(s.output[l], s.output[k]);
    }
    forall l | k < l < |s.output| && s.output[l].cause.Some?
      ensures i < s.output[l].cause.value || (s.output[l].cause == Some(i) && s.output[l].value.ListChanged?)
    {
      assert InOrder(s.output[k], s.output[l]);
    }
  }

  /** A message without an id asks for no reply. It gets one, with a null id, if and only if
      it is one of four methods. */
  lemma MessagesWithoutIdAnswered(ttl: nat, steps: seq<Step>, i: nat)
    requires var s := Run(Start(ttl), steps);
             i < DoneCount(s) && s.received[i].message.Message? && s.received[i].message.id.None?
    ensures var s := Run(Start(ttl), steps);
            (exists k: nat :: IsReplyTo(s, k, i))
                <==> KindOf(s.received[i].message) in {Initialize, ToolsList, ToolsCall, Ping}
    ensures var s := Run(Start(ttl), steps);
            forall k: nat :: IsReplyTo(s, k, i) ==> s.output[k].value.id == NullId
  {
    hide Run, KindOf, Replies, Changes;
    var s := Run(Start(ttl), steps);
    RunOrdered(ttl, steps);
    assert CountsRight(s, i);
    if Replies(s.output, i) > 0 {
      var k := CountedReply(s.output, i);
      assert IsReplyTo(s, k, i);
    }
    forall k: nat | IsReplyTo(s, k, i)
      ensures s.output[k].value.id == NullId && Replies(s.output, i) > 0
    {
      assert WellAddressed(s, k);
      ReplyIsCounted(s.output, i, k);
    }
  }

  lemma {:induction false} ReplyIsCounted(out: seq<Written>, i: nat, k: nat)
    requires k < |out| && out[k].cause == Some(i) && out[k].value.Reply?
    ensures Replies(out, i) > 0
  {
    if k < |out| - 1 {
      ReplyIsCounted(out[..|out| - 1], i, k);
    }
  }

  /** No list a client is given is empty, whatever the backend answers and when. */
  lemma ListsNeverEmpty(ttl: nat, steps: seq<Step>, k: nat)
    requires var s := Run(Start(ttl), steps);
             k < |s.output| && s.output[k].value.Reply? && s.output[k].value.body.ToolList?
    ensures Run(Start(ttl), steps).output[k].value.body.tools != []
  {
    hide Run, CacheSound;
    RunSound(ttl, steps);
  }

  /** Whose list a step puts into the cache: that of a fetch, or of a warm-up or a retry. */
  datatype Stored = Nothing | ByFetch(list: seq<Tool>) | ByWarmUp(list: seq<Tool>)

  function StoreOf(s: State, step: Step): Stored {
    match step
    case BackendAnswers(a) =>
      if !s.busy || s.received == [] then Nothing
      else if KindOf(s.received[|s.received| - 1].message) == Initialized && Usable(a) then ByWarmUp(a.list)
      else if KindOf(s.received[|s.received| - 1].message) == ToolsList && a.Tools? then ByFetch(a.list)
      else Nothing
    case Attempt(i, a) =>
      if i < |s.tasks| && s.tasks[i].Sleeping? && s.tasks[i].wakeAt <= s.now && Usable(a)
      then ByWarmUp(a.list) else Nothing
    case _ => Nothing
  }

  /** The last answer of the backend that a run has stored. */
  function LastStore(s: State, steps: seq<Step>): Stored {
    if steps == [] then Nothing
    else
      var stored := StoreOf(Run(s, steps[..|steps| - 1]), steps[|steps| - 1]);
      if stored != Nothing then stored else LastStore(s, steps[..|steps| - 1])
  }

  predicate Holds(c: Cache, stored: Stored) {
    match stored
    case Nothing => c == EMPTY_CACHE
    case ByFetch(list) => c.fetchedAt.Some? && c.tools == list + META
    case ByWarmUp(list) => c.fetchedAt.Some? && c.tools == list && list != []
  }

  lemma StepStores(s: State, step: Step)
    ensures var c := Apply(s, step).cache;
            if StoreOf(s, step) == Nothing then c == s.cache else Holds(c, StoreOf(s, step))
  {
    hide KindOf, Answered, Attempted, SessionFormat;
  }

  /** The cache holds exactly the last answer stored: a fetched list with the gateway tools
      added, a warm-up's as it came. */
  lemma {:induction false} CacheIsLastStore(ttl: nat, steps: seq<Step>)
    ensures Holds(Run(Start(ttl), steps).cache, LastStore(Start(ttl), steps))
  {
    hide Apply, StoreOf, Holds;
    if steps == [] {
      assert Holds(Start(ttl).cache, Nothing) by { NothingHeld(ttl); }
    } else {
      var front, last := steps[..|steps| - 1], steps[|steps| - 1];
      CacheIsLastStore(ttl, front);
      StepStores(Run(Start(ttl), front), last);
    }
  }

  lemma NothingHeld(ttl: nat)
    ensures Holds(Start(ttl).cache, Nothing)
  {
  }

  lemma ListWithMeta(list: seq<Tool>)
    ensures EndsWithMeta(list + META)
  {
    assert (list + META)[|list + META| - 2..] == META;
  }

  /** A listing served from a fresh cache ends with the gateway tools if and only if the last
      answer stored was a fetch's, or a warm-up's that ends with them itself. */
  lemma CachedListHasMetaIff(ttl: nat, steps: seq<Step>, inbound: Inbound)
    requires var s := Run(Start(ttl), steps); !s.busy && Fresh(s.cache, s.ttl, s.now)
    requires KindOf(inbound.message) == ToolsList && inbound.message.Message?
    ensures var s := Run(Start(ttl), steps);
            var reply := Written(Reply(inbound.message.id.GetOr(NullId), ToolList(s.cache.tools)),
                                 inbound.format, Some(|s.received|));
            Apply(s, Receive(inbound)).output == s.output + [reply]
    ensures var stored := LastStore(Start(ttl), steps);
            && stored != Nothing
            && (EndsWithMeta(Run(Start(ttl), steps).cache.tools) <==> stored.ByFetch? || EndsWithMeta(stored.list))
  {
    hide Run, EndsWithMeta, KindOf, LastStore;
    CacheIsLastStore(ttl, steps);
    var s := Run(Start(ttl), steps);
    var reply := Written(Reply(inbound.message.id.GetOr(NullId), ToolList(s.cache.tools)), inbound.format,
                         Some(|s.received|));
    assert Apply(s, Receive(inbound)).output == s.output + [reply] + [];
    var stored := LastStore(Start(ttl), steps);
    if stored.ByFetch? {
      ListWithMeta(stored.list);
    }
  }

  /** ... and after a warm-up that is what happens: a client that lists the tools in time is
      not told of the gateway tools. */
  lemma WarmUpHidesMeta(ttl: nat, tool: Tool, id: Id)
    requires ttl > 0
    ensures var init := Inbound(Message(None, "notifications/initialized", None), Framing.ContentLength);
            var list := Inbound(Message(Some(id), "tools/list", None), Framing.ContentLength);
            Run(Start(ttl), [Receive(init), BackendAnswers(Tools([tool])), Receive(list)]).output
            == [Written(ListChanged, Framing.ContentLength, Some(0)),
                Written(Reply(id, ToolList([tool])), Framing.ContentLength, Some(1))]
    ensures !EndsWithMeta([tool])
  {
    var init := Inbound(Message(None, "notifications/initialized", None), Framing.ContentLength);
    var list := Inbound(Message(Some(id), "tools/list", None), Framing.ContentLength);
    var answer := Tools([tool]);
    RunOfThree(Start(ttl), Receive(init), BackendAnswers(answer), Receive(list));
    KindsOfMethods(None);
    KindsOfMethods(Some(id));
    hide Run, Apply, KindOf;
    WarmThenList(ttl, tool, init, list);
  }

  lemma KindsOfMethods(id: Option<Id>)
    ensures KindOf(Message(id, "notifications/initialized", None)) == Initialized
    ensures KindOf(Message(id, "tools/list", None)) == ToolsList
  {
  }

  lemma RunOfThree(s: State, a: Step, b: Step, c: Step)
    ensures Run(s, [a, b, c]) == Apply(Apply(Apply(s, a), b), c)
  {
    hide Apply;
    assert [a, b, c][..2] == [a, b] && [a, b][..1] == [a];
    assert Run(s, [a]) == Apply(s, a);
    assert Run(s, [a, b]) == Apply(Run(s, [a]), b);
  }

  lemma WarmThenList(ttl: nat, tool: Tool, init: Inbound, list: Inbound)
    requires ttl > 0 && init.message.Message? && init.message.id.None? && KindOf(init.message) == Initialized
    requires list.message.Message? && list.message.id.Some? && KindOf(list.message) == ToolsList
    ensures Apply(Apply(Apply(Start(ttl), Receive(init)), BackendAnswers(Tools([tool]))), Receive(list)).output
            == [Written(ListChanged, init.format, Some(0)),
                Written(Reply(list.message.id.value, ToolList([tool])), list.format, Some(1))]
  {
    hide KindOf;
    var s1 := Apply(Apply(Start(ttl), Receive(init)), BackendAnswers(Tools([tool])));
    assert s1.output == [Written(ListChanged, init.format, Some(0))];
    assert s1.cache == Cache([tool], Some(0)) && s1.received == [init] && !s1.busy;
    assert Apply(s1, Receive(list)).output
        == s1.output + [Written(Reply(list.message.id.value, ToolList([tool])), list.format, Some(1))];
  }

  /** A retry task taken through the answers to its attempts, and what it does to the cache. */
  function Retrying(c: Cache, t: Task, answers: seq<Answer>, times: seq<nat>): (Cache, Task)
    requires |answers| == |times|
    decreases |answers|
  {
    if answers == [] || !t.Sleeping? then (c, t)
    else Retrying(Warmed(c, answers[0], times[0]), Attempted(t, answers[0], times[0]), answers[1..], times[1..])
  }

  lemma {:induction false} RetryingFrom(c: Cache, t: Task, answers: seq<Answer>, times: seq<nat>, n: nat,
                                        attempts: nat, slept: nat, warm: bool)
    requires |answers| == |times| == ATTEMPTS && Retried(answers, attempts, slept, warm)
    requires n < attempts && t.Sleeping? && t.attempts == n && TaskSound(t)
    ensures Retrying(c, t, answers[n..], times[n..])
            == if warm then (Warmed(c, answers[attempts - 1], times[attempts - 1]), Announcing(attempts, slept))
               else (c, Over(attempts, slept))
    decreases ATTEMPTS - n
  {
    hide Delay, SleepBefore, Usable;
    DelayStep(n);
    var a, t' := answers[n], Attempted(t, answers[n], times[n]);
    assert answers[n..][0] == a && answers[n..][1..] == answers[n + 1..];
    assert times[n..][0] == times[n] && times[n..][1..] == times[n + 1..];
    if t'.Sleeping? {
      RetryingFrom(Warmed(c, a, times[n]), t', answers, times, n + 1, attempts, slept, warm);
    }
  }

  /** The retry task of the session is the retry loop of the server: the same attempts, the
      same sleep, and the same list in the cache. */
  lemma RetryTaskIsRetryWarm(c: Cache, now: nat, answers: seq<Answer>, times: seq<nat>,
                             attempts: nat, slept: nat, warm: bool)
    requires |answers| == |times| == ATTEMPTS && Retried(answers, attempts, slept, warm)
    ensures Retrying(c, Woken(now), answers, times)
            == if warm then (Warmed(c, answers[attempts - 1], times[attempts - 1]), Announcing(attempts, slept))
               else (c, Over(attempts, slept))
  {
    hide Delay, SleepBefore, Usable;
    DelayStep(0);
    assert answers[0..] == answers && times[0..] == times;
    RetryingFrom(c, Woken(now), answers, times, 0, attempts, slept, warm);
  }

  /** Each retry task makes at most six attempts and sleeps at most ninety seconds. */
  lemma RetriesAreBounded(ttl: nat, steps: seq<Step>, i: nat)
    requires i < |Run(Start(ttl), steps).tasks|
    ensures var t := Run(Start(ttl), steps).tasks[i];
            t.attempts <= ATTEMPTS && t.slept <= 90 && (t.Sleeping? ==> t.slept + t.delay <= 90)
  {
    hide Run;
    RunSound(ttl, steps);
    var t := Run(Start(ttl), steps).tasks[i];
    assert TaskSound(t);
    assert t.Sleeping? ==> t.slept + t.delay == SleepBefore(t.attempts + 1);
  }

  lemma {:induction false} OverAtMostAll(tasks: seq<Task>)
    ensures OverCount(tasks) <= |tasks|
  {
    if tasks != [] {
      OverAtMostAll(tasks[..|tasks| - 1]);
    }
  }

  /** Each retry task announces new tools at most once: the background notifications written
      or queued never outnumber the warm-ups that failed. */
  lemma BackgroundIsBounded(ttl: nat, steps: seq<Step>)
    ensures var s := Run(Start(ttl), steps); Background(s.output) + s.queued <= |s.tasks|
  {
    hide Run;
    RunSound(ttl, steps);
    OverAtMostAll(Run(Start(ttl), steps).tasks);
  }
}
