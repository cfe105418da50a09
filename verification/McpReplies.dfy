/** What the server answers: the body of every reply, the tools of every listing, and when
    background work is due. */
module McpReplies {
  import opened Options
  import opened McpServer
  import opened McpSession
  import Framing = StdioFraming

  // ---------- The body of every reply ----------

  /** The body a message is due, by its method as it stands on the wire; a cancellation is due
      none. */
  predicate Fits(m: Message, body: Body) {
    if m.Malformed? then body == Error(-32700)
    else if m.rpcMethod == "initialize" then
      body == Capabilities(if m.version == Some("2024-11-05") then "2024-11-05" else "2025-06-18")
    else if m.rpcMethod == "ping" || m.rpcMethod == "initialized" || m.rpcMethod == "notifications/initialized" then
      body == Empty
    else if m.rpcMethod == "notifications/cancelled" then false
    else if m.rpcMethod == "tools/list" then body.ToolList?
    else if m.rpcMethod == "tools/call" then body.CallResult?
    else body == Error(-32601)
  }

  ghost predicate AllFit(s: State) {
    forall k, i :: 0 <= k < |s.output| && s.output[k].cause == Some(i) && s.output[k].value.Reply? ==>
      i < |s.received| && Fits(s.received[i].message, s.output[k].value.body)
  }

  lemma KindFits(m: Message)
    ensures KindOf(m) == Initialize ==> Fits(m, Capabilities(NegotiatedVersion(m.version)))
    ensures KindOf(m) in {Ping, Initialized} ==> Fits(m, Empty)
    ensures KindOf(m) == Unknown ==> Fits(m, Error(if m.Malformed? then -32700 else -32601))
    ensures KindOf(m) == Cancelled ==> !Answered(m)
    ensures KindOf(m) == ToolsList ==> forall tools :: Fits(m, ToolList(tools))
    ensures KindOf(m) == ToolsCall ==> forall text, isError :: Fits(m, CallResult(text, isError))
  {
    if m.Message? {
      MethodsDiffer();
    }
  }

  lemma MethodsDiffer()
    ensures |"initialize"| == 10 && |"initialized"| == 11 && |"notifications/initialized"| == 25
    ensures |"notifications/cancelled"| == 23 && |"tools/list"| == 10 && |"tools/call"| == 10 && |"ping"| == 4
    ensures "initialize"[0] != "tools/list"[0] && "tools/list"[6] != "tools/call"[6]
  {
  }

  lemma FinishFits(s: State, body: Body)
    requires AllFit(s) && s.received != []
    requires Answered(s.received[|s.received| - 1].message) ==> Fits(s.received[|s.received| - 1].message, body)
    ensures AllFit(Finish(s, body))
  {
    hide Fits, KindOf, Answered;
    var t := Finish(s, body);
    forall k, i | 0 <= k < |t.output| && t.output[k].cause == Some(i) && t.output[k].value.Reply?
      ensures i < |t.received| && Fits(t.received[i].message, t.output[k].value.body)
    {
      if k < |s.output| {
        assert t.output[k] == s.output[k];
      }
    }
  }

  lemma ReadFits(s: State, inbound: Inbound)
    requires AllFit(s)
    ensures AllFit(s.(received := s.received + [inbound], busy := true))
  {
    hide Fits;
  }

  lemma ReceivedFits(s: State, inbound: Inbound)
    requires AllFit(s)
    ensures AllFit(Received(s, inbound))
  {
    hide Fits, KindOf, AllFit, Finish, NegotiatedVersion;
    var t := s.(received := s.received + [inbound], busy := true);
    ReadFits(s, inbound);
    KindFits(inbound.message);
    match KindOf(inbound.message)
    case Initialize => FinishFits(t, Capabilities(NegotiatedVersion(inbound.message.version)));
    case Ping => FinishFits(t, Empty);
    case Cancelled => FinishFits(t, Empty);
    case Unknown => FinishFits(t, Error(if inbound.message.Malformed? then -32700 else -32601));
    case ToolsList => FinishFits(t, ToolList(s.cache.tools));
    case _ =>
  }

  lemma AnsweringFits(s: State, a: Answer)
    requires AllFit(s) && s.received != []
    ensures AllFit(Answering(s, a))
  {
    hide Fits, KindOf, Finish, Warmed, Fetched, Listing, NegotiatedVersion;
    var m := s.received[|s.received| - 1].message;
    KindFits(m);
    var tasks := if Usable(a) then s.tasks else s.tasks + [Woken(s.now)];
    if KindOf(m) == Initialized {
      FinishFits(s.(cache := Warmed(s.cache, a, s.now), tasks := tasks), Empty);
    } else if KindOf(m) == ToolsList {
      FinishFits(s.(cache := Fetched(s.cache, a, s.now)), ToolList(Listing(a)));
    }
  }

  lemma StepFits(s: State, step: Step)
    requires AllFit(s)
    ensures AllFit(Apply(s, step))
  {
    hide Fits, KindOf, Finish, Received, Answering, Warmed, Attempted, SessionFormat, NegotiatedVersion;
    match step
    case Receive(inbound) => ReceivedFits(s, inbound);
    case BackendAnswers(a) =>
      if s.received != [] {
        AnsweringFits(s, a);
      }
    case CallReturns(text, isError) =>
      if s.received != [] {
        KindFits(s.received[|s.received| - 1].message);
        if KindOf(s.received[|s.received| - 1].message) == ToolsCall {
          FinishFits(s, CallResult(text, isError));
        }
      }
    case _ =>
  }

  /** Over every run each reply carries what its message is due. */
  lemma {:induction false} RepliesFit(ttl: nat, steps: seq<Step>)
    ensures AllFit(Run(Start(ttl), steps))
  {
    hide Apply, AllFit;
    if steps == [] {
      assert AllFit(Start(ttl)) by { NothingWritten(ttl); }
    } else {
      RepliesFit(ttl, steps[..|steps| - 1]);
      StepFits(Run(Start(ttl), steps[..|steps| - 1]), steps[|steps| - 1]);
    }
  }

  lemma NothingWritten(ttl: nat)
    ensures AllFit(Start(ttl))
  {
  }

  // ---------- Listings and calls ----------

  /** The message being dispatched calls this method, under this id or none. */
  predicate Dispatching(s: State, rpcMethod: string) {
    && s.busy && s.received != []
    && s.received[|s.received| - 1].message.Message? && s.received[|s.received| - 1].message.rpcMethod == rpcMethod
  }

  /** The one reply a step writes for the message being dispatched. */
  predicate RepliesWith(s: State, s': State, body: Body)
    requires s.received != [] && s.received[|s.received| - 1].message.Message?
  {
    var last := s.received[|s.received| - 1];
    var id := if last.message.id.Some? then last.message.id.value else NullId;
    !s'.busy && s'.output == s.output + [Written(Reply(id, body), last.format, Some(|s.received| - 1))]
  }

  predicate GatewayTools(list: seq<Tool>) {
    list == [Tool("discover", "path, deep"), Tool("exec", "args")]
  }

  /** A listing the backend is asked for carries its tools, in its order, and then the two
      gateway tools, and is what the cache holds from then on; when the backend fails it carries
      the two gateway tools, and the cache stays as it was. */
  lemma FetchedListing(s: State, a: Answer) returns (list: seq<Tool>)
    requires Dispatching(s, "tools/list")
    ensures RepliesWith(s, Apply(s, BackendAnswers(a)), ToolList(list))
    ensures var cache := Apply(s, BackendAnswers(a)).cache;
            match a
            case Tools(tools) => |list| == |tools| + 2 && list[..|tools|] == tools && GatewayTools(list[|tools|..])
                                 && cache == Cache(list, Some(s.now))
            case Failed => GatewayTools(list) && cache == s.cache
  {
    list := match a case Tools(tools) => tools + META case Failed => META;
    assert KindOf(s.received[|s.received| - 1].message) == ToolsList by { MethodsDiffer(); }
    ListReplied(s, a);
    hide KindOf, Finish, RepliesWith, Answered;
    assert a.Tools? ==> list[..|a.list|] == a.list && list[|a.list|..] == META;
  }

  lemma ListReplied(s: State, a: Answer)
    requires Dispatching(s, "tools/list") && KindOf(s.received[|s.received| - 1].message) == ToolsList
    ensures RepliesWith(s, Apply(s, BackendAnswers(a)), ToolList(Listing(a)))
    ensures Apply(s, BackendAnswers(a)).cache == Fetched(s.cache, a, s.now)
  {
    hide KindOf, Listing, Fetched;
    var s' := Apply(s, BackendAnswers(a));
    assert s'.output == s.output + s'.output[|s.output|..];
  }

  /** While the list is fresh it is served as it is; once its time is over the backend is asked. */
  lemma FreshListing(s: State, id: Option<Id>, version: Option<string>, format: Format, pause: nat)
    requires !s.busy && s.cache.fetchedAt == Some(s.now)
    ensures var s1 := Apply(s, Tick(pause));
            var s2 := Apply(s1, Receive(Inbound(Message(id, "tools/list", version), format)));
            if pause < s.ttl then
              s2.output == s.output + [Written(Reply(if id.Some? then id.value else NullId, ToolList(s.cache.tools)),
                                               format, Some(|s.received|))]
            else s2.output == s.output && s2.busy
  {
    MethodsDiffer();
    assert KindOf(Message(id, "tools/list", version)) == ToolsList;
    hide KindOf;
  }

  /** A tool call is answered with the text and the error flag it returned. */
  lemma CallIsAnswered(s: State, text: string, isError: bool)
    requires Dispatching(s, "tools/call")
    ensures RepliesWith(s, Apply(s, CallReturns(text, isError)), CallResult(text, isError))
  {
    assert KindOf(s.received[|s.received| - 1].message) == ToolsCall by { MethodsDiffer(); }
    hide KindOf;
    var s' := Apply(s, CallReturns(text, isError));
    assert s'.output[|s.output|].value.body == CallResult(text, isError);
  }

  // ---------- Background work ----------

  /** A warm-up that finds nothing is retried two seconds later and no sooner. */
  lemma FirstRetryWaits(s: State, a: Answer, pause: nat, later: Answer)
    requires s.busy && s.received != [] && KindOf(s.received[|s.received| - 1].message) == Initialized && !Usable(a)
    ensures var s1 := Apply(s, BackendAnswers(a));
            var s2 := Apply(s1, Tick(pause));
            && |s1.tasks| == |s.tasks| + 1
            && (Apply(s2, Attempt(|s.tasks|, later)) != s2 <==> pause >= 2)
  {
    hide KindOf;
  }

  /** After `n` attempts in vain the next comes after the delay listed, and no sooner. */
  lemma RetryWaits(s: State, i: nat, a: Answer, pause: nat, later: Answer)
    requires i < |s.tasks| && s.tasks[i].Sleeping? && TaskSound(s.tasks[i]) && s.tasks[i].wakeAt <= s.now
    requires !Usable(a) && s.tasks[i].attempts < 5
    ensures var s1 := Apply(s, Attempt(i, a));
            var s2 := Apply(s1, Tick(pause));
            Apply(s2, Attempt(i, later)) != s2 <==> pause >= [4, 8, 16, 30, 30][s.tasks[i].attempts]
  {
    var t := s.tasks[i];
    assert Delay(t.attempts + 1) == [2, 4, 8, 16, 30, 30][t.attempts + 1];
  }

  /** Eight notifications may wait to be written; each is written once the loop is free, in the
      framing of the last message received. */
  lemma NotificationsWait(s: State, i: nat)
    requires i < |s.tasks| && s.tasks[i].Announcing?
    ensures Apply(s, Announce(i)) != s <==> s.queued < 8
    ensures Apply(s, Announce(i)).queued == if s.queued < 8 then s.queued + 1 else s.queued
  {
    assert Apply(s, Announce(i)) != s ==> Apply(s, Announce(i)).queued != s.queued;
  }

  lemma NotificationIsWritten(s: State)
    ensures var s' := Apply(s, Deliver);
            if s.busy || s.queued == 0 then s' == s
            else
              && s'.queued == s.queued - 1
              && s'.output == s.output + [Written(ListChanged, if s.received == [] then Framing.ContentLength
                                                               else s.received[|s.received| - 1].format, None)]
  {
  }
}
