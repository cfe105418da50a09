/** What a reader of the written configuration finds: after the last begin marker, each setting
    once, with its value. */
module CodexFile {
  import opened Options
  import opened Bytes
  import opened ManagedBlock
  import opened ManagedBlockFixpoint
  import opened TomlString

  /** The line opens with this text. */
  predicate Opens(line: bytes, text: string) {
    Ascii(text) <= line
  }

  /** Line `i` is the only one after line `b` that opens with this text. */
  ghost predicate OnlyLine(lines: seq<bytes>, b: nat, text: string, i: nat) {
    b < i < |lines| && Opens(lines[i], text) && forall j :: b < j < |lines| && Opens(lines[j], text) ==> j == i
  }

  /** Line `b` is the begin marker, and no later line is one. */
  ghost predicate LastBegin(lines: seq<bytes>, b: nat) {
    && b < |lines| && Trim(lines[b]) == Ascii("# edgeplane-codex: edgeplane managed block (begin)")
    && forall j :: b < j < |lines| ==> Trim(lines[j]) != Ascii("# edgeplane-codex: edgeplane managed block (begin)")
  }

  /** The string a line sets after its opening text, and what follows its closing quote. */
  function Setting(line: bytes, text: string): Option<(bytes, bytes)>
    requires Opens(line, text)
  {
    ReadBasicString(line[|text|..])
  }

  lemma AsciiConcat(s: string, t: string)
    ensures Ascii(s + t) == Ascii(s) + Ascii(t)
  {
  }

  const MARKER_TEXT := "# edgeplane-codex: edgeplane managed block "

  lemma MarkersInLetters()
    ensures Begin() == Ascii("# edgeplane-codex: edgeplane managed block (begin)")
    ensures End() == Ascii("# edgeplane-codex: edgeplane managed block (end)")
  {
    hide Ascii;
    MarkerStartInLetters();
    AsciiConcat(MARKER_TEXT, "(begin)");
    AsciiConcat(MARKER_TEXT, "(end)");
    MarkerTexts();
  }

  lemma MarkerTexts()
    ensures MARKER_TEXT + "(begin)" == "# edgeplane-codex: edgeplane managed block (begin)"
    ensures MARKER_TEXT + "(end)" == "# edgeplane-codex: edgeplane managed block (end)"
  {
  }

  lemma MarkerStartInLetters()
    ensures MarkerStart() == Ascii(MARKER_TEXT)
  {
    var a, b, c := "# edgeplane-codex: ", "edgeplane managed ", "block ";
    AsciiConcat(a, b);
    AsciiConcat(a + b, c);
    hide Ascii;
    assert a + b + c == MARKER_TEXT;
  }

  // ---------- The block at the end of the file ----------

  /** The lines between the markers; none ends in a carriage return or is a marker. */
  ghost predicate PlainLine(l: bytes) {
    StripCr(l) == l && !IsBegin(l)
  }

  lemma NoBeginMarker(l: bytes)
    requires l == [] || (l[0] < 128 && !AsciiSpace(l[0]) && l[0] != HASH)
    ensures !IsBegin(l)
  {
    MarkerStartShape();
    if l != [] {
      assert TrimStart(l) == l;
      TrimEndFacts(l);
      assert Begin()[0] == HASH;
    } else {
      assert Trim(l) == [];
      assert |Begin()| > 0;
    }
  }

  lemma PlainValueLines(command: bytes, baseUrl: bytes)
    requires OneLine(command) && OneLine(baseUrl)
    ensures PlainLine(CommandLine(command)) && PlainLine(EnvLine(baseUrl))
  {
    ValueLines(command, baseUrl);
    NoBeginMarker(CommandLine(command));
    NoBeginMarker(EnvLine(baseUrl));
    hide IsBegin, EscapeToml, CommandPrefix, EnvPrefix;
    assert CommandLine(command)[|CommandLine(command)| - 1] == QUOTE;
    assert EnvLine(baseUrl)[|EnvLine(baseUrl)| - 1] == EnvSuffix()[1] == 0x7D;
  }

  lemma PlainFixedLines()
    ensures PlainLine(ApprovalLine()) && PlainLine(SandboxLine()) && PlainLine([]) && PlainLine(TableLine())
    ensures PlainLine(ArgsLine()) && PlainLine(StartupLine()) && PlainLine(ToolLine()) && PlainLine(End())
    ensures StripCr(Begin()) == Begin()
  {
    LastBytes();
    ApprovalLineShape();
    SandboxLineShape();
    TableAndArgsLines();
    TimeoutLines();
    EndShape();
    MarkersDiffer(End());
    BeginIs(End());
    hide IsBegin, ApprovalLine, SandboxLine, TableLine, ArgsLine, StartupLine, ToolLine, Begin, End;
    NoBeginMarker(ApprovalLine());
    NoBeginMarker(SandboxLine());
    NoBeginMarker([]);
    NoBeginMarker(TableLine());
    NoBeginMarker(ArgsLine());
    NoBeginMarker(StartupLine());
    NoBeginMarker(ToolLine());
  }

  lemma LastBytes()
    ensures ApprovalLine()[|ApprovalLine()| - 1] == 0x22 && SandboxLine()[|SandboxLine()| - 1] == 0x22
    ensures TableLine()[|TableLine()| - 1] == 0x5D && ArgsLine()[|ArgsLine()| - 1] == 0x5D
    ensures StartupLine()[|StartupLine()| - 1] == 0x30 && ToolLine()[|ToolLine()| - 1] == 0x30
    ensures End()[|End()| - 1] == 0x29 && Begin()[|Begin()| - 1] == 0x29
  {
    hide MarkerStart;
    var a, b := Ascii("(end)"), Ascii("(begin)");
    assert a[|a| - 1] == 0x29 && b[|b| - 1] == 0x29;
  }

  lemma BlockIsPlain(command: bytes, baseUrl: bytes)
    requires OneLine(command) && OneLine(baseUrl)
    ensures var block := BlockLines(command, baseUrl);
            && |block| == 11 && StripAll(block) == block && block[0] == Begin()
            && forall i :: 1 <= i < 11 ==> PlainLine(block[i])
  {
    hide CommandLine, EnvLine, ApprovalLine, SandboxLine, TableLine, ArgsLine, StartupLine, ToolLine, Begin, End,
        PlainLine, StripCr, StripAll, OneLine;
    PlainValueLines(command, baseUrl);
    PlainFixedLines();
    PlainIsKept(BlockLines(command, baseUrl));
  }

  lemma PlainIsKept(block: seq<bytes>)
    requires block != [] && StripCr(block[0]) == block[0] && forall i :: 1 <= i < |block| ==> PlainLine(block[i])
    ensures StripAll(block) == block
  {
    hide IsBegin, StripCr;
  }

  /** The file ends in the lines of the block; whatever stands before them is kept text. */
  lemma FileEndsInBlock(existing: bytes, command: bytes, baseUrl: bytes) returns (head: seq<bytes>)
    requires OneLine(command) && OneLine(baseUrl)
    ensures Lines(Written(existing, command, baseUrl)) == head + BlockLines(command, baseUrl)
  {
    hide BlockLines, Strip, Lines, Unlines, IsRegion;
    var block := BlockLines(command, baseUrl);
    BlockIsRegion(command, baseUrl);
    BlockIsPlain(command, baseUrl);
    if existing == [] {
      RegionIsLines(block);
      LinesOfUnlines(block);
      head := [];
    } else {
      StripEndsWithoutLf(existing);
      LinesOfWritten(Strip(existing), block);
      head := StripAll(Pieces(Strip(existing))) + [[]];
    }
  }

  lemma RegionIsLines(block: seq<bytes>)
    requires IsRegion(block)
    ensures block != [] && AllOneLine(block)
  {
    hide IsBegin, IsEnd;
  }

  // ---------- The settings ----------

  /** The line starts with these two bytes. */
  predicate StartsSo(line: bytes, first: byte, second: byte) {
    |line| >= 2 && line[0] == first && line[1] == second
  }

  lemma FixedOpenings()
    ensures StartsSo(ApprovalLine(), 0x61, 0x70) && StartsSo(SandboxLine(), 0x73, 0x61)
    ensures StartsSo(TableLine(), 0x5B, 0x6D) && StartsSo(ArgsLine(), 0x61, 0x72)
    ensures StartsSo(StartupLine(), 0x73, 0x74) && StartsSo(ToolLine(), 0x74, 0x6F)
  {
  }

  lemma ValueOpenings(command: bytes, baseUrl: bytes)
    ensures StartsSo(CommandLine(command), 0x63, 0x6F) && StartsSo(EnvLine(baseUrl), 0x65, 0x6E)
  {
    hide EscapeToml;
    assert CommandLine(command)[0] == CommandPrefix()[0] && CommandLine(command)[1] == CommandPrefix()[1];
    assert EnvLine(baseUrl)[0] == EnvPrefix()[0] && EnvLine(baseUrl)[1] == EnvPrefix()[1];
  }

  lemma MarkerOpenings()
    ensures |End()| > 2 && End()[0] == HASH && |Begin()| > 2 && Begin()[0] == HASH
  {
    MarkerStartShape();
    hide MarkerStart;
  }

  function PlaceOf(first: byte, second: byte): nat {
    if first == 0x61 then (if second == 0x70 then 1 else 6)
    else if first == 0x73 then (if second == 0x61 then 2 else 7)
    else if first == 0x5B then 4
    else if first == 0x63 then 5
    else if first == 0x74 then 8
    else 9
  }

  /** The first two bytes tell the lines of the block apart. */
  lemma Openings(command: bytes, baseUrl: bytes, k: nat, first: byte, second: byte)
    requires k < 11
    ensures StartsSo(BlockLines(command, baseUrl)[k], first, second) && first != HASH ==>
              k == PlaceOf(first, second)
  {
    FixedOpenings();
    ValueOpenings(command, baseUrl);
    MarkerOpenings();
    hide CommandLine, EnvLine, ApprovalLine, SandboxLine, TableLine, ArgsLine, StartupLine, ToolLine, Begin, End;
  }

  /** A line of the block is the only one after the marker that opens so. */
  lemma OnlyInBlock(head: seq<bytes>, block: seq<bytes>, text: string, k: nat, first: byte, second: byte)
    requires 0 < k < |block| && Opens(block[k], text) && StartsSo(Ascii(text), first, second)
    requires forall j :: 0 < j < |block| && StartsSo(block[j], first, second) ==> j == k
    ensures OnlyLine(head + block, |head|, text, |head| + k)
  {
    hide Ascii, Opens, StartsSo;
    var lines := head + block;
    assert lines[|head| + k] == block[k];
    forall j | |head| < j < |lines| && Opens(lines[j], text)
      ensures j == |head| + k
    {
      assert lines[j] == block[j - |head|];
      OpensStart(block[j - |head|], text, first, second);
    }
  }

  lemma OpensStart(line: bytes, text: string, first: byte, second: byte)
    requires Opens(line, text) && StartsSo(Ascii(text), first, second)
    ensures StartsSo(line, first, second)
  {
    hide Ascii;
    assert line[0] == Ascii(text)[0] && line[1] == Ascii(text)[1];
  }

  /** No two lines of the block start alike. */
  lemma StartsOnce(command: bytes, baseUrl: bytes, k: nat, first: byte, second: byte)
    requires k < 11 && first != HASH && StartsSo(BlockLines(command, baseUrl)[k], first, second)
    ensures |BlockLines(command, baseUrl)| == 11
    ensures forall j :: 0 <= j < 11 && StartsSo(BlockLines(command, baseUrl)[j], first, second) ==> j == k
  {
    BlockPlaces(command, baseUrl);
    hide BlockLines, StartsSo;
    Openings(command, baseUrl, k, first, second);
    forall j | 0 <= j < 11 && StartsSo(BlockLines(command, baseUrl)[j], first, second)
      ensures j == k
    {
      Openings(command, baseUrl, j, first, second);
    }
  }

  lemma CommandSetting(command: bytes)
    ensures Opens(CommandLine(command), "command = \"") && StartsSo(Ascii("command = \""), 0x63, 0x6F)
    ensures Setting(CommandLine(command), "command = \"") == if NoControls(command) then Some((command, [])) else None
  {
    CommandLineReadsBack(command);
    hide EscapeToml, NoControls, ReadBasicString;
    assert CommandPrefix()[0] == 0x63 && CommandPrefix()[1] == 0x6F;
  }

  lemma EnvSetting(baseUrl: bytes)
    ensures Opens(EnvLine(baseUrl), "env = { EP_BASE_URL = \"")
    ensures StartsSo(Ascii("env = { EP_BASE_URL = \""), 0x65, 0x6E)
    ensures Setting(EnvLine(baseUrl), "env = { EP_BASE_URL = \"")
            == if NoControls(baseUrl) then Some((baseUrl, Ascii(" }"))) else None
  {
    EnvLineReadsBack(baseUrl);
    hide EscapeToml, NoControls, ReadBasicString;
    assert EnvPrefix()[0] == 0x65 && EnvPrefix()[1] == 0x6E;
  }

  /** After the last begin marker of the written file exactly one line opens with the command's
      key and sets the command, and exactly one with the URL's and sets the URL, each word for
      word, in the table of the server. */
  lemma FileSetsValues(existing: bytes, command: bytes, baseUrl: bytes) returns (lines: seq<bytes>, b: nat)
    requires OneLine(command) && OneLine(baseUrl)
    ensures lines == Lines(Written(existing, command, baseUrl)) && LastBegin(lines, b) && |lines| == b + 11
    ensures OnlyLine(lines, b, "command = \"", b + 5)
    ensures Setting(lines[b + 5], "command = \"") == if NoControls(command) then Some((command, [])) else None
    ensures OnlyLine(lines, b, "env = { EP_BASE_URL = \"", b + 9)
    ensures Setting(lines[b + 9], "env = { EP_BASE_URL = \"")
            == if NoControls(baseUrl) then Some((baseUrl, Ascii(" }"))) else None
    ensures lines[b + 4] == Ascii("[mcp_servers.edgeplane]")
  {
    hide Written, Lines, BlockLines, CommandLine, EnvLine, Setting, NoControls, OnlyLine, LastBegin, OneLine;
    var block := BlockLines(command, baseUrl);
    var head := FileEndsInBlock(existing, command, baseUrl);
    lines, b := head + block, |head|;
    BlockPlaces(command, baseUrl);
    CommandSetting(command);
    EnvSetting(baseUrl);
    ValueOpenings(command, baseUrl);
    StartsOnce(command, baseUrl, 5, 0x63, 0x6F);
    StartsOnce(command, baseUrl, 9, 0x65, 0x6E);
    OnlyInBlock(head, block, "command = \"", 5, 0x63, 0x6F);
    OnlyInBlock(head, block, "env = { EP_BASE_URL = \"", 9, 0x65, 0x6E);
    BeginIsLast(head, command, baseUrl);
    assert lines[b + 5] == block[5] && lines[b + 9] == block[9] && lines[b + 4] == block[4];
  }

  lemma BlockPlaces(command: bytes, baseUrl: bytes)
    ensures var block := BlockLines(command, baseUrl);
            && |block| == 11 && block[4] == Ascii("[mcp_servers.edgeplane]")
            && block[5] == CommandLine(command) && block[9] == EnvLine(baseUrl)
  {
    hide CommandLine, EnvLine;
  }

  lemma BeginIsLast(head: seq<bytes>, command: bytes, baseUrl: bytes)
    requires OneLine(command) && OneLine(baseUrl)
    ensures LastBegin(head + BlockLines(command, baseUrl), |head|)
  {
    hide BlockLines, Begin, Ascii, IsBegin, Trim, StripCr;
    var block := BlockLines(command, baseUrl);
    BlockIsPlain(command, baseUrl);
    MarkersInLetters();
    BeginShape();
    BeginIs(Begin());
    forall j | |head| < j < |head + block|
      ensures Trim((head + block)[j]) != Begin()
    {
      assert (head + block)[j] == block[j - |head|];
      BeginIs(block[j - |head|]);
    }
  }

  // ---------- The settings that never change ----------

  lemma {:induction false} PlainEscape(value: bytes)
    requires BACKSLASH !in value && QUOTE !in value
    ensures EscapeEach(value) == value
  {
    if value != [] {
      PlainEscape(value[1..]);
    }
  }

  lemma FixedString(text: string, value: string)
    requires forall i :: 0 <= i < |value| ==> 'a' <= value[i] <= 'z' || value[i] == '-'
    ensures ReadBasicString((Ascii(text) + Ascii(value) + [QUOTE])[|text|..]) == Some((Ascii(value), []))
  {
    var v := Ascii(value);
    PlainEscape(v);
    TwoReplacesAreOne(v);
    EscapedReadsBack(v, []);
    hide Ascii, ReadBasicString;
    assert v + [QUOTE] + [] == v + [QUOTE];
    assert (Ascii(text) + v + [QUOTE])[|text|..] == v + [QUOTE];
  }

  lemma FixedLines()
    ensures ApprovalLine() == Ascii("approval_policy = \"") + Ascii("on-request") + [QUOTE]
    ensures SandboxLine() == Ascii("sandbox_mode = \"") + Ascii("workspace-write") + [QUOTE]
    ensures StartupLine() == Ascii("startup_timeout_sec = ") + Ascii("30")
    ensures ToolLine() == Ascii("tool_timeout_sec = ") + Ascii("60")
  {
    AsciiConcat("approval_policy = \"", "on-request");
    AsciiConcat("sandbox_mode = \"", "workspace-write");
    AsciiConcat("startup_timeout_sec = ", "30");
    AsciiConcat("tool_timeout_sec = ", "60");
    QuotedEnd("approval_policy = \"" + "on-request");
    QuotedEnd("sandbox_mode = \"" + "workspace-write");
    hide Ascii;
    assert "approval_policy = \"" + "on-request" + "\"" == "approval_policy = \"on-request\"";
    assert "sandbox_mode = \"" + "workspace-write" + "\"" == "sandbox_mode = \"workspace-write\"";
    assert "startup_timeout_sec = " + "30" == "startup_timeout_sec = 30";
    assert "tool_timeout_sec = " + "60" == "tool_timeout_sec = 60";
  }

  lemma QuotedEnd(text: string)
    ensures Ascii(text + "\"") == Ascii(text) + [QUOTE]
  {
  }

  /** The other settings of the block: each key stands once, with its fixed value. */
  lemma FileSetsDefaults(existing: bytes, command: bytes, baseUrl: bytes) returns (lines: seq<bytes>, b: nat)
    requires OneLine(command) && OneLine(baseUrl)
    ensures lines == Lines(Written(existing, command, baseUrl)) && LastBegin(lines, b) && |lines| == b + 11
    ensures OnlyLine(lines, b, "approval_policy = \"", b + 1)
    ensures Setting(lines[b + 1], "approval_policy = \"") == Some((Ascii("on-request"), []))
    ensures OnlyLine(lines, b, "sandbox_mode = \"", b + 2)
    ensures Setting(lines[b + 2], "sandbox_mode = \"") == Some((Ascii("workspace-write"), []))
    ensures lines[b + 6] == Ascii("args = [\"serve\"]")
    ensures lines[b + 7] == Ascii("startup_timeout_sec = ") + Ascii("30")
    ensures lines[b + 8] == Ascii("tool_timeout_sec = ") + Ascii("60")
    ensures lines[b + 10] == Ascii("# edgeplane-codex: edgeplane managed block (end)")
  {
    hide Written, Lines, BlockLines, OnlyLine, LastBegin, OneLine, Ascii, ReadBasicString;
    var block := BlockLines(command, baseUrl);
    var head := FileEndsInBlock(existing, command, baseUrl);
    lines, b := head + block, |head|;
    FixedPlaces(command, baseUrl);
    FixedLines();
    MarkersInLetters();
    FixedString("approval_policy = \"", "on-request");
    FixedString("sandbox_mode = \"", "workspace-write");
    FixedOpenings();
    StartsOnce(command, baseUrl, 1, 0x61, 0x70);
    StartsOnce(command, baseUrl, 2, 0x73, 0x61);
    TextOpenings();
    OnlyInBlock(head, block, "approval_policy = \"", 1, 0x61, 0x70);
    OnlyInBlock(head, block, "sandbox_mode = \"", 2, 0x73, 0x61);
    BeginIsLast(head, command, baseUrl);
    assert forall k :: 1 <= k <= 10 ==> lines[b + k] == block[k];
  }

  lemma TextOpenings()
    ensures StartsSo(Ascii("approval_policy = \""), 0x61, 0x70) && StartsSo(Ascii("sandbox_mode = \""), 0x73, 0x61)
    ensures |Ascii("approval_policy = \"")| == |"approval_policy = \""|
    ensures |Ascii("sandbox_mode = \"")| == |"sandbox_mode = \""|
  {
  }

  lemma FixedPlaces(command: bytes, baseUrl: bytes)
    ensures var block := BlockLines(command, baseUrl);
            && |block| == 11 && block[1] == ApprovalLine() && block[2] == SandboxLine()
            && block[6] == ArgsLine() == Ascii("args = [\"serve\"]")
            && block[7] == StartupLine() && block[8] == ToolLine() && block[10] == End()
  {
    hide ApprovalLine, SandboxLine, StartupLine, ToolLine, End, Ascii;
  }
}
