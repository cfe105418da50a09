/** The terminal plugin behind the control pipe: what each request line does and answers. */
module PanePlugin {
  import opened Options
  import opened Bytes
  import opened Utf8
  import opened ControlPipe

  // ---------- Classification of a screen ----------

  datatype AgentState = Idle | Working | InError | Unknown

  const PROMPT: bytes := [0xE2, 0x9D, 0xAF]
  const CROSS: bytes := [0xE2, 0x9C, 0x97]
  const RUNNING_TOOL: bytes := [0x52, 0x75, 0x6E, 0x6E, 0x69, 0x6E, 0x67, 0x20, 0x74, 0x6F, 0x6F, 0x6C]
  const ERROR_LABEL: bytes := [0x45, 0x72, 0x72, 0x6F, 0x72, 0x3A]

  /** The third bytes of the spinner characters, which all start E2 A0. */
  const SPINNERS: set<byte> := {0x8B, 0x99, 0xB9, 0xB8, 0xBC, 0xB4, 0xA6, 0xA7, 0x87, 0x8F}

  predicate StandsAt(s: bytes, part: bytes, i: nat) {
    i + |part| <= |s| && s[i..i + |part|] == part
  }

  predicate Contains(s: bytes, part: bytes) {
    exists i: nat :: i <= |s| && StandsAt(s, part, i)
  }

  predicate HasSpinner(s: bytes) {
    exists i :: 0 <= i < |s| - 2 && s[i] == 0xE2 && s[i + 1] == 0xA0 && s[i + 2] in SPINNERS
  }

  predicate IdleLine(line: bytes) {
    var t := Trim(line);
    t == PROMPT || PROMPT + [0x20] <= t
  }

  predicate WorkingLine(line: bytes) {
    Contains(Trim(line), RUNNING_TOOL) || HasSpinner(Trim(line))
  }

  predicate ErrorLine(line: bytes) {
    Contains(Trim(line), ERROR_LABEL) || Contains(Trim(line), CROSS)
  }

  function FirstSignal(tail: seq<bytes>): AgentState {
    if tail == [] then Unknown
    else if WorkingLine(tail[0]) then Working
    else if ErrorLine(tail[0]) then InError
    else FirstSignal(tail[1..])
  }

  function ClassifyState(tail: seq<bytes>): AgentState {
    if exists i :: 0 <= i < |tail| && IdleLine(tail[i]) then Idle else FirstSignal(tail)
  }

  predicate Quiet(line: bytes) {
    !WorkingLine(line) && !ErrorLine(line)
  }

  lemma {:induction false} FirstSignalAt(tail: seq<bytes>)
    ensures FirstSignal(tail) == Unknown <==> forall i :: 0 <= i < |tail| ==> Quiet(tail[i])
    ensures forall k :: 0 <= k < |tail| && (forall i :: 0 <= i < k ==> Quiet(tail[i])) && !Quiet(tail[k]) ==>
              FirstSignal(tail) == if WorkingLine(tail[k]) then Working else InError
  {
    hide WorkingLine, ErrorLine;
    if tail != [] {
      FirstSignalAt(tail[1..]);
      forall k | 0 <= k < |tail| && (forall i :: 0 <= i < k ==> Quiet(tail[i])) && !Quiet(tail[k])
        ensures FirstSignal(tail) == if WorkingLine(tail[k]) then Working else InError
      {
        if k > 0 {
          assert Quiet(tail[0]) && tail[1..][k - 1] == tail[k];
          assert forall i :: 0 <= i < k - 1 ==> tail[1..][i] == tail[i + 1];
        }
      }
      assert forall i :: 0 <= i < |tail| - 1 ==> tail[1..][i] == tail[i + 1];
    }
  }

  /** A prompt anywhere wins; otherwise the first line with a signal decides, and a working
      signal on it hides an error; without any the state is unknown. */
  lemma ClassifyMeans(tail: seq<bytes>)
    ensures ClassifyState(tail) == Idle <==> exists i :: 0 <= i < |tail| && IdleLine(tail[i])
    ensures ClassifyState(tail) == Unknown
            <==> forall i :: 0 <= i < |tail| ==> !IdleLine(tail[i]) && Quiet(tail[i])
    ensures forall k :: 0 <= k < |tail| && (forall i :: 0 <= i < k ==> Quiet(tail[i])) && !Quiet(tail[k])
                        && (forall i :: 0 <= i < |tail| ==> !IdleLine(tail[i])) ==>
              ClassifyState(tail) == if WorkingLine(tail[k]) then Working else InError
  {
    hide WorkingLine, ErrorLine, IdleLine;
    FirstSignalAt(tail);
    NeverIdle(tail);
  }

  lemma {:induction false} NeverIdle(tail: seq<bytes>)
    ensures FirstSignal(tail) != Idle
  {
    if tail != [] {
      NeverIdle(tail[1..]);
    }
  }

  // ---------- One line ----------

  datatype Effect = Wrote(pane: PaneRef, text: bytes) | Interrupted(pane: PaneRef)

  datatype Outcome =
    | Injected | Cancelled | LinesRead(lines: seq<bytes>) | Classified(state: AgentState) | Panes(panes: seq<bytes>)
    | Failed(fault: Fault)

  datatype Response = Response(id: bytes, outcome: Outcome)

  /** What the terminal shows at one moment: the panes and the manifest listing. */
  datatype Screen = Screen(panes: map<PaneRef, seq<bytes>>, listing: Option<seq<bytes>>)

  function Tail(lines: seq<bytes>, cap: Option<nat>): seq<bytes> {
    if cap.Some? && |lines| > cap.value then lines[|lines| - cap.value..] else lines
  }

  function Scrollback(pane: bytes, cap: Option<nat>, screen: Screen): Outcome {
    match ParsePaneRef(pane)
    case BadRef(e) => Failed(BadPane(e))
    case Pane(p) => if p in screen.panes then LinesRead(Tail(screen.panes[p], cap)) else Failed(NoScrollback)
  }

  function CallOutcome(call: Call, screen: Screen): Outcome {
    match call
    case Inject(pane, _) => if ParsePaneRef(pane).Pane? then Injected else Failed(BadPane(ParsePaneRef(pane).error))
    case Cancel(pane) => if ParsePaneRef(pane).Pane? then Cancelled else Failed(BadPane(ParsePaneRef(pane).error))
    case ReadScrollback(pane, cap) => Scrollback(pane, cap, screen)
    case Classify(pane) =>
      (match Scrollback(pane, None, screen)
       case LinesRead(lines) => Classified(ClassifyState(lines))
       case other => other)
    case ListAgentPanes => if screen.listing.Some? then Panes(screen.listing.value) else Failed(NoManifest)
  }

  function CallEffects(call: Call): seq<Effect> {
    match call
    case Inject(pane, text) => if ParsePaneRef(pane).Pane? then [Wrote(ParsePaneRef(pane).ref, text)] else []
    case Cancel(pane) => if ParsePaneRef(pane).Pane? then [Interrupted(ParsePaneRef(pane).ref)] else []
    case _ => []
  }

  /** The reply to a line that the JSON reader made a request of, or not. */
  function Answer(parsed: Option<Request>, screen: Screen): Response {
    match parsed
    case None => Response([], Failed(BadJson))
    case Some(req) =>
      Response(req.id, match Validate(req)
                       case Invalid(f) => Failed(f)
                       case Valid(call) => CallOutcome(call, screen))
  }

  function Effects(parsed: Option<Request>): seq<Effect> {
    if parsed.Some? && Validate(parsed.value).Valid? then CallEffects(Validate(parsed.value).call) else []
  }

  // ---------- A payload ----------

  /** Each line is served on what the terminal shows when its turn comes: between two lines the
      screen may change in any way, by what the lines before made the agents do or otherwise. */
  function Answers(lines: seq<bytes>, read: bytes -> Option<Request>, views: seq<Screen>): seq<Response>
    requires |views| == |lines|
  {
    if lines == [] then []
    else
      var n := |lines| - 1;
      Answers(lines[..n], read, views[..n]) + [Answer(read(lines[n]), views[n])]
  }

  function AllEffects(lines: seq<bytes>, read: bytes -> Option<Request>): seq<Effect> {
    if lines == [] then [] else AllEffects(lines[..|lines| - 1], read) + Effects(read(lines[|lines| - 1]))
  }

  /** `effects` is what the terminal was told to do, `output` what the caller was sent. */
  class ZrpcPlugin {
    var effects: seq<Effect>
    var output: seq<Response>

    method InjectInto(pane: bytes, text: bytes, ghost screen: Screen) returns (r: Outcome)
      modifies `effects
      ensures effects == old(effects) + CallEffects(Inject(pane, text)) && r == CallOutcome(Inject(pane, text), screen)
    {
      match ParsePaneRef(pane)
      case BadRef(e) => r := Failed(BadPane(e));
      case Pane(p) =>
        effects := effects + [Wrote(p, text)];
        r := Injected;
    }

    method CancelPane(pane: bytes, ghost screen: Screen) returns (r: Outcome)
      modifies `effects
      ensures effects == old(effects) + CallEffects(Cancel(pane)) && r == CallOutcome(Cancel(pane), screen)
    {
      match ParsePaneRef(pane)
      case BadRef(e) => r := Failed(BadPane(e));
      case Pane(p) =>
        effects := effects + [Interrupted(p)];
        r := Cancelled;
    }

    method Scroll(pane: bytes, cap: Option<nat>, screen: Screen) returns (r: Outcome)
      ensures r == Scrollback(pane, cap, screen)
    {
      match ParsePaneRef(pane)
      case BadRef(e) => r := Failed(BadPane(e));
      case Pane(p) =>
        if p !in screen.panes {
          return Failed(NoScrollback);
        }
        var viewport := screen.panes[p];
        if cap.Some? && |viewport| > cap.value {
          viewport := viewport[|viewport| - cap.value..];
        }
        r := LinesRead(viewport);
    }

    method Dispatch(call: Call, screen: Screen) returns (r: Outcome)
      modifies `effects
      ensures effects == old(effects) + CallEffects(call) && r == CallOutcome(call, screen)
    {
      hide ParsePaneRef, ClassifyState;
      match call {
        case Inject(pane, text) => r := InjectInto(pane, text, screen);
        case Cancel(pane) => r := CancelPane(pane, screen);
        case ReadScrollback(pane, cap) => r := Scroll(pane, cap, screen);
        case Classify(pane) =>
          r := Scroll(pane, None, screen);
          if r.LinesRead? {
            r := Classified(ClassifyState(r.lines));
          }
        case ListAgentPanes =>
          r := if screen.listing.Some? then Panes(screen.listing.value) else Failed(NoManifest);
      }
    }

    /** The control pipe: one response written for each line that is not blank. */
    method Pipe(payload: bytes, read: bytes -> Option<Request>, views: seq<Screen>)
      requires |views| == |RequestLines(payload)|
      modifies `effects, `output
      ensures output == old(output) + Answers(RequestLines(payload), read, views)
      ensures effects == old(effects) + AllEffects(RequestLines(payload), read)
    {
      hide CallEffects, CallOutcome, Validate, RequestLines;
      var lines := RequestLines(payload);
      for i := 0 to |lines|
        invariant output == old(output) + Answers(lines[..i], read, views[..i])
        invariant effects == old(effects) + AllEffects(lines[..i], read)
      {
        assert lines[..i + 1][..i] == lines[..i] && views[..i + 1][..i] == views[..i];
        var parsed := read(lines[i]);
        var response := Response([], Failed(BadJson));
        if parsed.Some? {
          var validated := Validate(parsed.value);
          if validated.Invalid? {
            response := Response(parsed.value.id, Failed(validated.fault));
          } else {
            var outcome := Dispatch(validated.call, views[i]);
            response := Response(parsed.value.id, outcome);
          }
        }
        output := output + [response];
      }
      assert lines[..|lines|] == lines && views[..|lines|] == views;
    }
  }

  // ---------- What the pipe guarantees ----------

  /** Exactly one response a line, in order, with the id of its request or none. */
  lemma {:induction false} OneResponsePerLine(lines: seq<bytes>, read: bytes -> Option<Request>, views: seq<Screen>)
    requires |views| == |lines|
    ensures |Answers(lines, read, views)| == |lines|
    ensures forall i :: 0 <= i < |lines| ==>
              Answers(lines, read, views)[i].id == if read(lines[i]).Some? then read(lines[i]).value.id else []
  {
    hide Validate, CallOutcome;
    if lines != [] {
      var n := |lines| - 1;
      OneResponsePerLine(lines[..n], read, views[..n]);
      forall i | 0 <= i < n
        ensures Answers(lines, read, views)[i] == Answers(lines[..n], read, views[..n])[i] && lines[..n][i] == lines[i]
      {
      }
    }
  }

  /** The terminal is told something exactly by the requests that are answered as injected or
      cancelled; a failed request does nothing. */
  lemma EffectIffAcknowledged(parsed: Option<Request>, screen: Screen)
    ensures Effects(parsed) != [] <==> Answer(parsed, screen).outcome in {Injected, Cancelled}
    ensures |Effects(parsed)| <= 1
  {
    hide Validate, ParsePaneRef, ClassifyState;
  }

  /** ... and what it is told is the valid call itself. */
  lemma EffectIsTheCall(req: Request, pane: PaneRef, text: bytes)
    ensures Effects(Some(req)) == [Wrote(pane, text)]
            <==> exists ref :: Validate(req) == Valid(Inject(ref, text)) && ParsePaneRef(ref) == Pane(pane)
    ensures Effects(Some(req)) == [Interrupted(pane)]
            <==> exists ref :: Validate(req) == Valid(Cancel(ref)) && ParsePaneRef(ref) == Pane(pane)
    ensures Effects(Some(req)) == [Wrote(pane, text)] ==> forall screen :: Answer(Some(req), screen).outcome == Injected
    ensures Effects(Some(req)) == [Interrupted(pane)] ==>
              forall screen :: Answer(Some(req), screen).outcome == Cancelled
  {
    hide Validate, ParsePaneRef;
    if Effects(Some(req)) == [Wrote(pane, text)] {
      assert Validate(req) == Valid(Inject(Validate(req).call.pane, text));
    }
    if Effects(Some(req)) == [Interrupted(pane)] {
      assert Validate(req) == Valid(Cancel(Validate(req).call.pane));
    }
  }

  lemma {:induction false} AnswersConcat(a: seq<bytes>, b: seq<bytes>, read: bytes -> Option<Request>,
                                         va: seq<Screen>, vb: seq<Screen>)
    requires |va| == |a| && |vb| == |b|
    ensures Answers(a + b, read, va + vb) == Answers(a, read, va) + Answers(b, read, vb)
    ensures AllEffects(a + b, read) == AllEffects(a, read) + AllEffects(b, read)
  {
    hide Answer, Effects;
    if b == [] {
      assert a + b == a && va + vb == va;
    } else {
      var n := |b| - 1;
      assert (a + b)[..|a + b| - 1] == a + b[..n] && (va + vb)[..|a + b| - 1] == va + vb[..n];
      AnswersConcat(a, b[..n], read, va, vb[..n]);
    }
  }

  /** A carriage return is white space to a reader of JSON: at the end of a line it changes
      nothing. */
  ghost predicate IgnoresCr(read: bytes -> Option<Request>) {
    forall line :: read(StripCr(line)) == read(line)
  }

  lemma {:induction false} AnswersUpToCr(lines: seq<bytes>, others: seq<bytes>, read: bytes -> Option<Request>,
                                         views: seq<Screen>)
    requires IgnoresCr(read) && SameUpToCr(lines, others) && |views| == |lines|
    ensures Answers(lines, read, views) == Answers(others, read, views)
              && AllEffects(lines, read) == AllEffects(others, read)
  {
    hide Answer, Effects, StripCr;
    if lines != [] {
      var n := |lines| - 1;
      AnswersUpToCr(lines[..n], others[..n], read, views[..n]);
    }
  }

  /** Serving two payloads joined by a line feed is serving one and then the other. */
  lemma JoinedPayloads(a: bytes, b: bytes, read: bytes -> Option<Request>, va: seq<Screen>, vb: seq<Screen>)
    requires IgnoresCr(read) && |va| == |RequestLines(a)| && |vb| == |RequestLines(b)|
    ensures |RequestLines(a + [LF] + b)| == |va + vb|
    ensures Answers(RequestLines(a + [LF] + b), read, va + vb)
            == Answers(RequestLines(a), read, va) + Answers(RequestLines(b), read, vb)
    ensures AllEffects(RequestLines(a + [LF] + b), read)
            == AllEffects(RequestLines(a), read) + AllEffects(RequestLines(b), read)
  {
    hide RequestLines, IgnoresCr;
    var lines := PayloadsJoin(a, b);
    AnswersConcat(lines, RequestLines(b), read, va, vb);
    AnswersUpToCr(lines, RequestLines(a), read, va);
  }

  /** A capped read returns the last lines of the pane, as many as there are up to the cap. */
  lemma CappedReadIsTail(p: PaneRef, cap: nat, screen: Screen)
    requires p.n <= U32_MAX && p in screen.panes
    ensures var r := CallOutcome(ReadScrollback(Print(p), Some(cap)), screen);
            r.LinesRead? && |r.lines| == (if |screen.panes[p]| < cap then |screen.panes[p]| else cap)
            && r.lines == screen.panes[p][|screen.panes[p]| - |r.lines|..]
  {
    hide ParsePaneRef, Print;
    PaneRefRoundTrip(p);
  }

  /** Without a cap the whole of the pane is returned, and a pane is classified by the whole of
      it; a pane the terminal does not show has neither. */
  lemma PaneIsReadWhole(p: PaneRef, screen: Screen)
    requires p.n <= U32_MAX
    ensures CallOutcome(ReadScrollback(Print(p), None), screen)
            == if p in screen.panes then LinesRead(screen.panes[p]) else Failed(NoScrollback)
    ensures CallOutcome(Classify(Print(p)), screen)
            == if p in screen.panes then Classified(ClassifyState(screen.panes[p])) else Failed(NoScrollback)
  {
    hide ParsePaneRef, Print, ClassifyState;
    PaneRefRoundTrip(p);
  }

  /** A call that names no pane fails with the reason and does nothing; a listing is what the
      terminal lists. */
  lemma BadPanesFail(pane: bytes, text: bytes, cap: Option<nat>, screen: Screen)
    requires ParsePaneRef(pane).BadRef?
    ensures forall call :: call in {Inject(pane, text), Cancel(pane), ReadScrollback(pane, cap), Classify(pane)} ==>
              CallOutcome(call, screen) == Failed(BadPane(ParsePaneRef(pane).error)) && CallEffects(call) == []
    ensures CallOutcome(ListAgentPanes, screen)
            == match screen.listing case Some(panes) => Panes(panes) case None => Failed(NoManifest)
  {
    hide ParsePaneRef, ClassifyState;
  }

  /** The code points of the spinner characters. */
  const SPINNER_POINTS: set<int> :=
    {0x280B, 0x2819, 0x2839, 0x2838, 0x283C, 0x2834, 0x2826, 0x2827, 0x2807, 0x280F}

  /** The signals in letters: the prompt, the cross and the ten spinner characters by their code
      points, the two words by their letters. */
  lemma SignalsInLetters()
    ensures PROMPT == Encode(0x276F) && CROSS == Encode(0x2717)
    ensures RUNNING_TOOL == Ascii("Running tool") && ERROR_LABEL == Ascii("Error:")
  {
  }

  lemma SpinnersByPoint(b: byte)
    ensures b in SPINNERS <==> exists c :: c in SPINNER_POINTS && Scalar(c) && Encode(c) == [0xE2, 0xA0, b]
  {
    if b in SPINNERS {
      var c := 0x2800 + (b as int - 0x80);
      assert c in SPINNER_POINTS;
      assert c / 64 == 0xA0 && c % 64 == b as int - 0x80;
    }
  }

  // ---------- Signals as text ----------

  lemma ContainsIff(s: bytes, part: bytes)
    ensures Contains(s, part) <==> exists a, b :: s == a + part + b
  {
    if Contains(s, part) {
      var i: nat :| i <= |s| && StandsAt(s, part, i);
      assert s == s[..i] + part + s[i + |part|..];
    }
    if a, b :| s == a + part + b {
      assert StandsAt(s, part, |a|);
    }
  }

  lemma SpinnerIff(s: bytes)
    ensures HasSpinner(s) <==> exists a, c, b :: c in SPINNER_POINTS && Scalar(c) && s == a + Encode(c) + b
  {
    hide Encode;
    if HasSpinner(s) {
      var i :| 0 <= i < |s| - 2 && s[i] == 0xE2 && s[i + 1] == 0xA0 && s[i + 2] in SPINNERS;
      SpinnersByPoint(s[i + 2]);
      var c :| c in SPINNER_POINTS && Scalar(c) && Encode(c) == [0xE2, 0xA0, s[i + 2]];
      assert s == s[..i] + Encode(c) + s[i + 3..];
    }
    if a, c, b :| c in SPINNER_POINTS && Scalar(c) && s == a + Encode(c) + b {
      SpinnerBytes(c);
      var third := Encode(c)[2];
      SpinnersByPoint(third);
      assert s[|a|] == Encode(c)[0] && s[|a| + 1] == Encode(c)[1] && s[|a| + 2] == third;
    }
  }

  lemma SpinnerBytes(c: int)
    requires c in SPINNER_POINTS && Scalar(c)
    ensures |Encode(c)| == 3 && Encode(c) == [0xE2, 0xA0, Encode(c)[2]]
  {
  }

  /** A line shows a prompt, work or an error exactly when, outer white space apart, it is the
      prompt or starts with it and a space; has the words of a running tool or a spinner in it;
      has the word of an error or the cross in it. */
  lemma SignalLines(line: bytes)
    ensures IdleLine(line)
            <==> Trim(line) == Encode(0x276F) || exists rest :: Trim(line) == Encode(0x276F) + [0x20] + rest
    ensures WorkingLine(line)
            <==> || (exists a, b :: Trim(line) == a + Ascii("Running tool") + b)
                 || (exists a, c, b :: c in SPINNER_POINTS && Scalar(c) && Trim(line) == a + Encode(c) + b)
    ensures ErrorLine(line)
            <==> || (exists a, b :: Trim(line) == a + Ascii("Error:") + b)
                 || (exists a, b :: Trim(line) == a + Encode(0x2717) + b)
  {
    SignalsInLetters();
    hide Contains, HasSpinner, Encode, Ascii, Trim;
    var t := Trim(line);
    ContainsIff(t, RUNNING_TOOL);
    ContainsIff(t, ERROR_LABEL);
    ContainsIff(t, CROSS);
    SpinnerIff(t);
    if PROMPT + [0x20] <= t {
      assert t == PROMPT + [0x20] + t[|PROMPT| + 1..];
    }
  }

  // ---------- The effects of a payload ----------

  /** The lines that have an effect. */
  function Acting(lines: seq<bytes>, read: bytes -> Option<Request>): set<nat> {
    set i | 0 <= i < |lines| && Effects(read(lines[i])) != []
  }

  /** The terminal is told one thing for each line that has an effect, in the order of the lines. */
  lemma {:induction false} EffectsInOrder(lines: seq<bytes>, read: bytes -> Option<Request>)
    ensures |AllEffects(lines, read)| == |Acting(lines, read)|
    ensures forall i :: i in Acting(lines, read) ==>
              && |AllEffects(lines[..i], read)| < |AllEffects(lines, read)|
              && Effects(read(lines[i])) == [AllEffects(lines, read)[|AllEffects(lines[..i], read)|]]
  {
    hide Effects;
    if lines != [] {
      var n := |lines| - 1;
      EffectsInOrder(lines[..n], read);
      AtMostOneEffect(read(lines[n]));
      ActingSnoc(lines, read);
      forall i | i in Acting(lines, read)
        ensures && |AllEffects(lines[..i], read)| < |AllEffects(lines, read)|
                && Effects(read(lines[i])) == [AllEffects(lines, read)[|AllEffects(lines[..i], read)|]]
      {
        if i < n {
          assert lines[..n][..i] == lines[..i] && i in Acting(lines[..n], read);
        }
      }
    }
  }

  lemma AtMostOneEffect(parsed: Option<Request>)
    ensures |Effects(parsed)| <= 1
  {
    hide Validate, ParsePaneRef;
  }

  lemma ActingSnoc(lines: seq<bytes>, read: bytes -> Option<Request>)
    requires lines != []
    ensures var n := |lines| - 1;
            |Acting(lines, read)| == |Acting(lines[..n], read)| + if Effects(read(lines[n])) != [] then 1 else 0
    ensures forall i :: i < |lines| - 1 ==> (i in Acting(lines, read) <==> i in Acting(lines[..|lines| - 1], read))
  {
    hide Effects;
    var n := |lines| - 1;
    var before, more := Acting(lines[..n], read), Acting(lines, read);
    assert more - {n} == before;
    assert n in more ==> more == before + {n};
  }
}
