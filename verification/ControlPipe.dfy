/** The control pipe of the terminal plugin: pane references, requests, one response a line. */
module ControlPipe {
  import opened Options
  import opened Bytes

  // ---------- Pane references ----------

  datatype PaneKind = Terminal | Plugin

  datatype PaneRef = PaneRef(kind: PaneKind, n: nat)

  datatype RefError = NoSeparator | BadNumber | UnknownKind

  datatype Parsed = Pane(ref: PaneRef) | BadRef(error: RefError)

  const U32_MAX := 0xFFFF_FFFF
  const UNDERSCORE: byte := 0x5F
  const PLUS: byte := 0x2B
  const TERMINAL: bytes := [0x74, 0x65, 0x72, 0x6D, 0x69, 0x6E, 0x61, 0x6C]
  const PLUGIN: bytes := [0x70, 0x6C, 0x75, 0x67, 0x69, 0x6E]

  function KindText(kind: PaneKind): (s: bytes)
    ensures UNDERSCORE !in s
  {
    match kind
    case Terminal => TERMINAL
    case Plugin => PLUGIN
  }

  function Print(p: PaneRef): bytes {
    KindText(p.kind) + [UNDERSCORE] + Decimal(p.n)
  }

  function ParsePaneRef(s: bytes): Parsed {
    var k := IndexOf(s, UNDERSCORE);
    if k == |s| then BadRef(NoSeparator)
    else
      match ParseUnsigned(s[k + 1..], U32_MAX)
      case None => BadRef(BadNumber)
      case Some(n) =>
        if s[..k] == TERMINAL then Pane(PaneRef(Terminal, n))
        else if s[..k] == PLUGIN then Pane(PaneRef(Plugin, n))
        else BadRef(UnknownKind)
  }

  function Zeros(n: nat): bytes {
    seq(n, _ => 0x30)
  }

  /** What the number of a reference may look like. */
  function Spelled(n: nat, plus: bool, zeros: nat): bytes {
    (if plus then [PLUS] else []) + Zeros(zeros) + Decimal(n)
  }

  lemma DecimalDigits(v: nat, d: nat)
    requires d < 10
    ensures Decimal(10 * v + d) == if v == 0 then [0x30 + d] else Decimal(v) + [0x30 + d]
  {
  }

  lemma MoreDigits(zeros: nat, v: nat, d: nat)
    requires d < 10
    ensures Zeros(zeros) + Decimal(v) + [0x30 + d]
            == if v == 0 then Zeros(zeros + 1) + Decimal(10 * v + d) else Zeros(zeros) + Decimal(10 * v + d)
  {
    DecimalDigits(v, d);
    DecimalDigits(0, 0);
    hide Decimal;
    assert Zeros(zeros) + [0x30] == Zeros(zeros + 1);
    assert Zeros(zeros) + Decimal(v) + [0x30 + d] == Zeros(zeros) + (Decimal(v) + [0x30 + d]);
  }

  /** A digit string is zeros and then the number it denotes. */
  lemma {:induction false} LeadingZeros(s: bytes) returns (zeros: nat)
    requires s != [] && AllDigits(s)
    ensures s == Zeros(zeros) + Decimal(Value(s))
    decreases |s|
  {
    hide Decimal, Zeros, Value, AllDigits;
    var front, d := LastDigit(s);
    if front == [] {
      DecimalDigits(0, d);
      zeros := 0;
      assert Zeros(0) == [] by { NoZeros(); }
      assert s == [] + [0x30 + d] == [] + Decimal(d);
    } else {
      zeros := LeadingZeros(front);
      MoreDigits(zeros, Value(front), d);
      zeros := if Value(front) == 0 then zeros + 1 else zeros;
    }
  }

  lemma LastDigit(s: bytes) returns (front: bytes, d: nat)
    requires s != [] && AllDigits(s)
    ensures s == front + [0x30 + d] && |front| < |s| && AllDigits(front)
    ensures d < 10 && Value(s) == 10 * Value(front) + d && (front == [] ==> Value(front) == 0)
  {
    front, d := s[..|s| - 1], s[|s| - 1] - 0x30;
    assert s == front + [s[|s| - 1]];
  }

  lemma NoZeros()
    ensures Zeros(0) == []
  {
  }

  lemma {:induction false} ZerosValue(zeros: nat, n: nat)
    ensures AllDigits(Zeros(zeros) + Decimal(n)) && Value(Zeros(zeros) + Decimal(n)) == n
    decreases n
  {
    var s := Zeros(zeros) + Decimal(n);
    if n < 10 {
      assert s[..|s| - 1] == Zeros(zeros);
      ZerosAreZero(zeros);
    } else {
      ZerosValue(zeros, n / 10);
      assert s[..|s| - 1] == Zeros(zeros) + Decimal(n / 10);
    }
  }

  lemma {:induction false} ZerosAreZero(zeros: nat)
    ensures AllDigits(Zeros(zeros)) && Value(Zeros(zeros)) == 0
  {
    if zeros > 0 {
      ZerosAreZero(zeros - 1);
      assert Zeros(zeros)[..zeros - 1] == Zeros(zeros - 1);
    }
  }

  lemma ReadIsSpelled(s: bytes, n: nat)
    requires ParseUnsigned(s, U32_MAX) == Some(n)
    ensures n <= U32_MAX && exists plus, zeros :: s == Spelled(n, plus, zeros)
  {
    hide Decimal, Value;
    var plus := |s| > 0 && s[0] == PLUS;
    var digits := if plus then s[1..] else s;
    var zeros := LeadingZeros(digits);
    assert s == Spelled(n, plus, zeros);
  }

  lemma SpelledIsRead(n: nat, plus: bool, zeros: nat)
    requires n <= U32_MAX
    ensures ParseUnsigned(Spelled(n, plus, zeros), U32_MAX) == Some(n)
  {
    hide Decimal, Value;
    ZerosValue(zeros, n);
    var digits := Zeros(zeros) + Decimal(n);
    assert IsDigit(digits[0]);
    var s := Spelled(n, plus, zeros);
    assert s == (if plus then [PLUS] else []) + digits;
    assert if plus then s[0] == PLUS && s[1..] == digits else s == digits;
  }

  /** A number is read exactly from its spellings within 32 bits. */
  lemma ParseNumberIff(s: bytes, n: nat)
    ensures ParseUnsigned(s, U32_MAX) == Some(n) <==> n <= U32_MAX && exists plus, zeros :: s == Spelled(n, plus, zeros)
  {
    hide ParseUnsigned, Spelled;
    if ParseUnsigned(s, U32_MAX) == Some(n) {
      ReadIsSpelled(s, n);
    } else if n <= U32_MAX && exists plus, zeros :: s == Spelled(n, plus, zeros) {
      var plus, zeros :| s == Spelled(n, plus, zeros);
      SpelledIsRead(n, plus, zeros);
    }
  }

  lemma SplitAtUnderscore(kind: bytes, rest: bytes)
    requires UNDERSCORE !in kind
    ensures var s := kind + [UNDERSCORE] + rest;
            IndexOf(s, UNDERSCORE) == |kind| < |s| && s[..|kind|] == kind && s[|kind| + 1..] == rest
  {
    var s := kind + [UNDERSCORE] + rest;
    var k := IndexOf(s, UNDERSCORE);
    assert s[|kind|] == UNDERSCORE;
    forall i | 0 <= i < |kind|
      ensures s[i] != UNDERSCORE
    {
      assert s[i] == kind[i] && kind[i] in kind;
    }
  }

  /** Exactly which texts name a pane: the kind, an underscore, and a spelling of a number
      that fits 32 bits. */
  lemma ParsePaneRefIff(s: bytes, p: PaneRef)
    ensures ParsePaneRef(s) == Pane(p)
            <==> && p.n <= U32_MAX
                 && exists plus, zeros :: s == KindText(p.kind) + [UNDERSCORE] + Spelled(p.n, plus, zeros)
  {
    hide ParseUnsigned, Spelled;
    var k := IndexOf(s, UNDERSCORE);
    if ParsePaneRef(s) == Pane(p) {
      ParseNumberIff(s[k + 1..], p.n);
      var plus, zeros :| s[k + 1..] == Spelled(p.n, plus, zeros);
      assert s == s[..k] + [UNDERSCORE] + s[k + 1..];
    }
    if p.n <= U32_MAX && exists plus, zeros :: s == KindText(p.kind) + [UNDERSCORE] + Spelled(p.n, plus, zeros) {
      var plus, zeros :| s == KindText(p.kind) + [UNDERSCORE] + Spelled(p.n, plus, zeros);
      SplitAtUnderscore(KindText(p.kind), Spelled(p.n, plus, zeros));
      ParseNumberIff(Spelled(p.n, plus, zeros), p.n);
    }
  }

  /** Parsing inverts printing for every 32-bit pane number, and only for those. */
  lemma PaneRefRoundTrip(p: PaneRef)
    ensures ParsePaneRef(Print(p)) == if p.n <= U32_MAX then Pane(p) else BadRef(BadNumber)
  {
    SplitAtUnderscore(KindText(p.kind), Decimal(p.n));
    ParseDecimal(p.n, U32_MAX);
  }

  // ---------- Requests ----------

  datatype Json =
    | Null | Text(text: bytes) | Number(n: int) | Array(items: seq<Json>)
    | Object(fields: map<string, Json>) | OtherJson

  datatype Request = Request(id: bytes, rpcMethod: string, params: Json)

  datatype Call =
    | Inject(pane: bytes, text: bytes) | Cancel(pane: bytes) | ReadScrollback(pane: bytes, lines: Option<nat>)
    | Classify(pane: bytes) | ListAgentPanes

  datatype Fault = BadJson | UnknownMethod | InvalidParams | BadPane(error: RefError) | NoScrollback | NoManifest

  datatype Validated = Valid(call: Call) | Invalid(fault: Fault)

  /** `usize` of the plugin's target. */
  const USIZE_MAX := 0xFFFF_FFFF

  /** The named fields of a parameter record, which may also be written as an array; the first
      `needed` of them must be there in that case. */
  function Fields(params: Json, names: seq<string>, needed: nat): (r: Option<seq<Option<Json>>>)
    requires needed <= |names|
    ensures r.Some? ==> |r.value| == |names|
  {
    match params
    case Object(fields) =>
      Some(seq(|names|, i requires 0 <= i < |names| =>
                 if names[i] in fields then Some(fields[names[i]]) else None))
    case Array(items) =>
      if needed <= |items| <= |names|
      then Some(seq(|names|, i requires 0 <= i < |names| => if i < |items| then Some(items[i]) else None))
      else None
    case _ => None
  }

  predicate IsText(j: Option<Json>) {
    j.Some? && j.value.Text?
  }

  predicate IsLines(j: Option<Json>) {
    j.None? || j.value.Null? || (j.value.Number? && 0 <= j.value.n <= USIZE_MAX)
  }

  function LinesOf(j: Option<Json>): Option<nat>
    requires IsLines(j)
  {
    if j.Some? && j.value.Number? then Some(j.value.n) else None
  }

  function Validate(req: Request): Validated {
    if req.rpcMethod == "inject" then
      var f := Fields(req.params, ["pane_id", "text"], 2);
      if f.Some? && IsText(f.value[0]) && IsText(f.value[1])
      then Valid(Inject(f.value[0].value.text, f.value[1].value.text)) else Invalid(InvalidParams)
    else if req.rpcMethod == "cancel" then
      var f := Fields(req.params, ["pane_id"], 1);
      if f.Some? && IsText(f.value[0]) then Valid(Cancel(f.value[0].value.text)) else Invalid(InvalidParams)
    else if req.rpcMethod == "read_scrollback" then
      var f := Fields(req.params, ["pane_id", "lines"], 1);
      if f.Some? && IsText(f.value[0]) && IsLines(f.value[1])
      then Valid(ReadScrollback(f.value[0].value.text, LinesOf(f.value[1]))) else Invalid(InvalidParams)
    else if req.rpcMethod == "classify" then
      var f := Fields(req.params, ["pane_id"], 1);
      if f.Some? && IsText(f.value[0]) then Valid(Classify(f.value[0].value.text)) else Invalid(InvalidParams)
    else if req.rpcMethod == "list_agent_panes" then Valid(ListAgentPanes)
    else Invalid(UnknownMethod)
  }

  /** The record the client writes for a call. */
  function Build(id: bytes, call: Call): Request {
    match call
    case Inject(pane, text) => Request(id, "inject", Object(map["pane_id" := Text(pane), "text" := Text(text)]))
    case Cancel(pane) => Request(id, "cancel", Object(map["pane_id" := Text(pane)]))
    case ReadScrollback(pane, lines) =>
      Request(id, "read_scrollback",
              Object(map["pane_id" := Text(pane), "lines" := if lines.Some? then Number(lines.value) else Null]))
    case Classify(pane) => Request(id, "classify", Object(map["pane_id" := Text(pane)]))
    case ListAgentPanes => Request(id, "list_agent_panes", Null)
  }

  /** Validating a built request gives its call back, unless it asks for more lines than the
      plugin can count. */
  lemma BuiltRequestsValidate(id: bytes, call: Call)
    ensures Validate(Build(id, call))
            == if call.ReadScrollback? && call.lines.Some? && call.lines.value > USIZE_MAX
               then Invalid(InvalidParams) else Valid(call)
  {
    if call.Inject? {
      assert "pane_id" != "text";
    } else if call.ReadScrollback? {
      assert "pane_id" != "lines";
    }
  }

  // ---------- Lines ----------

  function NonBlank(lines: seq<bytes>): seq<bytes> {
    if lines == [] then [] else (if Blank(lines[0]) then [] else [lines[0]]) + NonBlank(lines[1..])
  }

  /** The requests of a payload, still as text. */
  function RequestLines(payload: bytes): seq<bytes> {
    NonBlank(Lines(payload))
  }

  function LastLine(s: bytes): bytes
    decreases |s|
  {
    var k := IndexOf(s, LF);
    if k == |s| then s else LastLine(s[k + 1..])
  }

  lemma {:induction false} TrimStartCr(x: bytes)
    ensures TrimStart(x + [CR]) == if TrimStart(x) == [] then [] else TrimStart(x) + [CR]
    decreases |x|
  {
    var n := LeadingSpace(x);
    if n == 0 {
      if x == [] {
        assert (x + [CR])[1..] == [];
      } else {
        assert LeadingSpace(x + [CR]) == 0;
      }
    } else {
      assert (x + [CR])[n..] == x[n..] + [CR];
      TrimStartCr(x[n..]);
    }
  }

  lemma BlankStripCr(line: bytes)
    ensures Blank(StripCr(line)) <==> Blank(line)
  {
    var x := StripCr(line);
    if x != line {
      assert line == x + [CR];
      TrimStartCr(x);
      TrimEndDropsAscii(TrimStart(x), CR);
    }
  }

  lemma NonBlankCons(line: bytes, rest: seq<bytes>)
    ensures NonBlank([line] + rest) == (if Blank(line) then [] else [line]) + NonBlank(rest)
  {
    assert ([line] + rest)[1..] == rest;
  }

  /** Whether cutting a payload after `a` changes the last line of `a`. */
  predicate CutKeepsCr(a: bytes) {
    !Blank(LastLine(a)) && StripCr(LastLine(a)) != LastLine(a)
  }

  lemma LastCut(a: bytes, b: bytes)
    requires OneLine(a)
    ensures RequestLines(a + [LF] + b) == RequestLines(a) + RequestLines(b) <==> !CutKeepsCr(a)
  {
    hide Blank;
    LinesAhead(a, b);
    FirstLf(a, []);
    NonBlankCons(StripCr(a), Lines(b));
    BlankStripCr(a);
    NonBlankCons(a, []);
    assert LastLine(a) == a;
    if a == [] {
      assert Blank([]) by { NothingIsBlank(); }
    } else {
      assert Lines(a) == [a] + [];
    }
    if !Blank(a) && StripCr(a) != a {
      assert ([StripCr(a)] + RequestLines(b))[0] != ([a] + RequestLines(b))[0];
    }
  }

  lemma NothingIsBlank()
    ensures Blank([])
  {
  }

  function Counted(line: bytes): seq<bytes> {
    if Blank(StripCr(line)) then [] else [StripCr(line)]
  }

  lemma LineAhead(first: bytes, rest: bytes)
    requires OneLine(first)
    ensures RequestLines(first + [LF] + rest) == Counted(first) + RequestLines(rest)
    ensures LastLine(first + [LF] + rest) == LastLine(rest)
  {
    hide Blank, StripCr;
    LinesAhead(first, rest);
    FirstLf(first, rest);
    NonBlankCons(StripCr(first), Lines(rest));
    var s := first + [LF] + rest;
    var k := IndexOf(s, LF);
    assert s[k + 1..] == rest;
  }

  /** Two payloads sent as one, a line feed between them, hold the requests of both in order
      if and only if the first does not end in a carriage return on a line that counts. */
  lemma {:induction false} PayloadsConcatenateIff(a: bytes, b: bytes)
    ensures RequestLines(a + [LF] + b) == RequestLines(a) + RequestLines(b) <==> !CutKeepsCr(a)
    decreases |a|
  {
    hide Blank, StripCr, RequestLines, LastLine, Counted;
    var k := IndexOf(a, LF);
    if k == |a| {
      LastCut(a, b);
    } else {
      var first, rest := a[..k], a[k + 1..];
      assert a == first + [LF] + rest;
      PayloadsConcatenateIff(rest, b);
      LineAhead(first, rest);
      LineAhead(first, rest + [LF] + b);
      assert a + [LF] + b == first + [LF] + (rest + [LF] + b);
      var x := Counted(first);
      CancelPrefix(x, RequestLines(rest + [LF] + b), RequestLines(rest) + RequestLines(b));
      assert x + (RequestLines(rest) + RequestLines(b)) == x + RequestLines(rest) + RequestLines(b);
    }
  }

  lemma CancelPrefix(x: seq<bytes>, p: seq<bytes>, q: seq<bytes>)
    ensures x + p == x + q <==> p == q
  {
    assert (x + p)[|x|..] == p && (x + q)[|x|..] == q;
  }

  /** The same lines, a carriage return at the end of one apart. */
  ghost predicate SameUpToCr(lines: seq<bytes>, others: seq<bytes>) {
    |lines| == |others| && forall i :: 0 <= i < |lines| ==> lines[i] == others[i] || lines[i] == StripCr(others[i])
  }

  /** In every case the joined payload holds the lines of both in order, that one carriage
      return apart. */
  lemma {:induction false} PayloadsJoin(a: bytes, b: bytes) returns (lines: seq<bytes>)
    ensures RequestLines(a + [LF] + b) == lines + RequestLines(b) && SameUpToCr(lines, RequestLines(a))
    decreases |a|
  {
    hide RequestLines, Counted, SameUpToCr;
    var k := IndexOf(a, LF);
    if k == |a| {
      LineAhead(a, b);
      OnlyLine(a);
      lines := Counted(a);
    } else {
      var first, rest := a[..k], a[k + 1..];
      assert a == first + [LF] + rest;
      var more := PayloadsJoin(rest, b);
      LineAhead(first, rest);
      LineAhead(first, rest + [LF] + b);
      assert a + [LF] + b == first + [LF] + (rest + [LF] + b);
      lines := Counted(first) + more;
      assert lines + RequestLines(b) == Counted(first) + (more + RequestLines(b));
      SamePrefix(Counted(first), more, RequestLines(rest));
    }
  }

  lemma OnlyLine(a: bytes)
    requires OneLine(a)
    ensures SameUpToCr(Counted(a), RequestLines(a))
  {
    hide Blank, StripCr;
    FirstLf(a, []);
    BlankStripCr(a);
    NonBlankCons(a, []);
    if a == [] {
      assert Blank([]) by { NothingIsBlank(); }
    } else {
      assert Lines(a) == [a] + [];
    }
  }

  lemma SamePrefix(x: seq<bytes>, lines: seq<bytes>, others: seq<bytes>)
    requires SameUpToCr(lines, others)
    ensures SameUpToCr(x + lines, x + others)
  {
    hide StripCr;
  }

  // ---------- Names on the wire ----------

  /** A record validates to a call by the names of its fields. */
  lemma InjectFields(id: bytes, fields: map<string, Json>, pane: bytes, text: bytes)
    ensures Validate(Request(id, "inject", Object(fields))) == Valid(Inject(pane, text))
            <==> && "pane_id" in fields && fields["pane_id"] == Text(pane)
                 && "text" in fields && fields["text"] == Text(text)
  {
  }

  lemma PaneFields(id: bytes, fields: map<string, Json>, pane: bytes)
    ensures Validate(Request(id, "cancel", Object(fields))) == Valid(Cancel(pane))
            <==> "pane_id" in fields && fields["pane_id"] == Text(pane)
    ensures Validate(Request(id, "classify", Object(fields))) == Valid(Classify(pane))
            <==> "pane_id" in fields && fields["pane_id"] == Text(pane)
    ensures Validate(Request(id, "list_agent_panes", Object(fields))) == Valid(ListAgentPanes)
  {
    MethodNamesDiffer();
  }

  lemma MethodNamesDiffer()
    ensures |"inject"| == 6 && |"cancel"| == 6 && |"read_scrollback"| == 15 && |"classify"| == 8
    ensures |"list_agent_panes"| == 16 && "inject"[0] != "cancel"[0]
  {
  }

  /** A read may leave its cap out, or write it as null; a cap has to fit 32 bits. */
  lemma ScrollbackFields(id: bytes, fields: map<string, Json>, pane: bytes, cap: Option<nat>)
    ensures Validate(Request(id, "read_scrollback", Object(fields))) == Valid(ReadScrollback(pane, cap))
            <==> && "pane_id" in fields && fields["pane_id"] == Text(pane)
                 && if cap.Some? then
                      cap.value < 4294967296 && "lines" in fields && fields["lines"] == Number(cap.value)
                    else "lines" !in fields || fields["lines"] == Null
  {
    MethodNamesDiffer();
  }

  /** Any other method is unknown. */
  lemma OtherMethodsFail(req: Request)
    ensures Validate(req) == Invalid(UnknownMethod)
            <==> req.rpcMethod !in {"inject", "cancel", "read_scrollback", "classify", "list_agent_panes"}
  {
  }

  lemma KindsInLetters()
    ensures TERMINAL == Ascii("terminal") && PLUGIN == Ascii("plugin") && [UNDERSCORE] == Ascii("_")
  {
  }

  /** Parameters may be given by position instead: as many as the call has, in its order. */
  lemma PositionalFields(id: bytes, items: seq<Json>, pane: bytes, text: bytes)
    ensures Validate(Request(id, "inject", Array(items))) == Valid(Inject(pane, text))
            <==> items == [Text(pane), Text(text)]
    ensures Validate(Request(id, "cancel", Array(items))) == Valid(Cancel(pane)) <==> items == [Text(pane)]
    ensures Validate(Request(id, "classify", Array(items))) == Valid(Classify(pane)) <==> items == [Text(pane)]
  {
    MethodNamesDiffer();
  }

  lemma PositionalScrollback(id: bytes, items: seq<Json>, pane: bytes, cap: nat)
    ensures Validate(Request(id, "read_scrollback", Array(items))) == Valid(ReadScrollback(pane, None))
            <==> items == [Text(pane)] || items == [Text(pane), Null]
    ensures Validate(Request(id, "read_scrollback", Array(items))) == Valid(ReadScrollback(pane, Some(cap)))
            <==> items == [Text(pane), Number(cap)] && cap < 4294967296
  {
    MethodNamesDiffer();
  }

  /** Why a text names no pane: it has no underscore; or what follows the first one is no number
      within 32 bits; or what stands before it is neither kind. */
  lemma BadRefsSayWhy(kind: bytes, rest: bytes)
    requires UNDERSCORE !in kind
    ensures ParsePaneRef(kind) == BadRef(NoSeparator)
    ensures var numeric := exists n, plus, zeros :: n < 4294967296 && rest == Spelled(n, plus, zeros);
            var known := kind == Ascii("terminal") || kind == Ascii("plugin");
            && (ParsePaneRef(kind + [UNDERSCORE] + rest) == BadRef(BadNumber) <==> !numeric)
            && (ParsePaneRef(kind + [UNDERSCORE] + rest) == BadRef(UnknownKind) <==> numeric && !known)
            && (ParsePaneRef(kind + [UNDERSCORE] + rest).Pane? <==> numeric && known)
  {
    hide ParseUnsigned, Spelled;
    SplitAtUnderscore(kind, rest);
    KindsInLetters();
    if IndexOf(kind, UNDERSCORE) < |kind| {
      assert false;
    }
    match ParseUnsigned(rest, U32_MAX)
    case Some(n) => ParseNumberIff(rest, n);
    case None =>
      forall n, plus, zeros | n < 4294967296
        ensures rest != Spelled(n, plus, zeros)
      {
        ParseNumberIff(rest, n);
      }
  }
}
