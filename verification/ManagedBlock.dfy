/** The part of a Codex configuration that edgeplane owns: a block between two marker lines,
    stripped and rendered anew whenever the file is written. */
module ManagedBlock {
  import opened Options
  import opened Bytes

  const QUOTE: byte := 0x22
  const BACKSLASH: byte := 0x5C
  const HASH: byte := 0x23

  function MarkerStart(): bytes {
    Ascii("# edgeplane-codex: ") + Ascii("edgeplane managed ") + Ascii("block ")
  }

  function Begin(): bytes {
    MarkerStart() + Ascii("(begin)")
  }

  function End(): bytes {
    MarkerStart() + Ascii("(end)")
  }

  function Join(lines: seq<bytes>): bytes {
    if lines == [] then []
    else if |lines| == 1 then lines[0]
    else lines[0] + [LF] + Join(lines[1..])
  }

  // ---------- Stripping ----------

  predicate IsBegin(l: bytes) {
    Trim(l) == Begin()
  }

  predicate IsEnd(l: bytes) {
    Trim(l) == End()
  }

  predicate IsMarker(l: bytes) {
    IsBegin(l) || IsEnd(l)
  }

  /** Line `i` is no marker, and every begin marker before it has been closed. */
  predicate Outside(lines: seq<bytes>, i: nat)
    requires i < |lines|
  {
    !IsMarker(lines[i]) &&
    forall b :: 0 <= b < i && IsBegin(lines[b]) ==> exists e :: b < e < i && IsEnd(lines[e])
  }

  /** The lines outside every marked region, in order. */
  function OutsideLines(lines: seq<bytes>, upTo: nat): seq<bytes>
    requires upTo <= |lines|
  {
    if upTo == 0 then []
    else OutsideLines(lines, upTo - 1) + if Outside(lines, upTo - 1) then [lines[upTo - 1]] else []
  }

  /** Some region is open after the first `upTo` lines. */
  predicate Open(lines: seq<bytes>, upTo: nat)
    requires upTo <= |lines|
  {
    exists b :: 0 <= b < upTo && IsBegin(lines[b]) && forall e :: b < e < upTo ==> !IsEnd(lines[e])
  }

  function Strip(existing: bytes): bytes {
    var lines := Lines(existing);
    TrimEnd(Join(OutsideLines(lines, |lines|)))
  }

  method StripManagedBlock(existing: bytes) returns (stripped: bytes)
    ensures stripped == Strip(existing)
  {
    hide IsBegin, IsEnd, Outside, Open, Trim;
    var lines := Lines(existing);
    var output: seq<bytes> := [];
    var skip := false;
    NotOpenAtStart(lines);
    for i := 0 to |lines|
      invariant skip == Open(lines, i)
      invariant output == OutsideLines(lines, i)
    {
      var line := lines[i];
      MarkersDiffer(line);
      OpenStep(lines, i);
      if Trim(line) == Begin() {
        BeginIs(line);
        skip := true;
        continue;
      }
      if Trim(line) == End() {
        EndIs(line);
        skip := false;
        continue;
      }
      NoMarkerIs(line);
      if !skip {
        output := output + [line];
      }
    }
    stripped := TrimEnd(Join(output));
  }

  lemma BeginIs(l: bytes)
    ensures IsBegin(l) <==> Trim(l) == Begin()
  {
  }

  lemma EndIs(l: bytes)
    ensures IsEnd(l) <==> Trim(l) == End()
  {
  }

  lemma NoMarkerIs(l: bytes)
    ensures IsMarker(l) <==> Trim(l) == Begin() || Trim(l) == End()
  {
  }

  lemma MarkersDiffer(l: bytes)
    ensures !(IsBegin(l) && IsEnd(l))
  {
    assert |Begin()| != |End()|;
  }

  lemma NotOpenAtStart(lines: seq<bytes>)
    ensures !Open(lines, 0)
  {
  }

  /** How one line moves the region state, and whether it is kept. */
  lemma OpenStep(lines: seq<bytes>, i: nat)
    requires i < |lines| && !(IsBegin(lines[i]) && IsEnd(lines[i]))
    ensures Open(lines, i + 1) <==> IsBegin(lines[i]) || (Open(lines, i) && !IsEnd(lines[i]))
    ensures Outside(lines, i) <==> !IsMarker(lines[i]) && !Open(lines, i)
  {
    hide IsBegin, IsEnd;
    if Open(lines, i) && !IsEnd(lines[i]) {
      var b :| 0 <= b < i && IsBegin(lines[b]) && forall e :: b < e < i ==> !IsEnd(lines[e]);
      assert forall e :: b < e < i + 1 ==> !IsEnd(lines[e]);
    }
    if Open(lines, i + 1) && !IsBegin(lines[i]) {
      var b :| 0 <= b < i + 1 && IsBegin(lines[b]) && forall e :: b < e < i + 1 ==> !IsEnd(lines[e]);
      assert b < i;
    }
  }

  // ---------- Rendering ----------

  /** `value.replace(from, to)` for a one-byte pattern. */
  function Replace(s: bytes, from: byte, to: bytes): bytes {
    if s == [] then [] else (if s[0] == from then to else [s[0]]) + Replace(s[1..], from, to)
  }

  function EscapeToml(value: bytes): bytes {
    Replace(Replace(value, BACKSLASH, [BACKSLASH, BACKSLASH]), QUOTE, [BACKSLASH, QUOTE])
  }

  function CommandPrefix(): bytes {
    Ascii("command = \"")
  }

  function CommandLine(command: bytes): bytes {
    CommandPrefix() + EscapeToml(command) + [QUOTE]
  }

  function EnvPrefix(): bytes {
    Ascii("env = { EP_BASE_URL = \"")
  }

  /** What follows the closing quote: the end of the inline table. */
  function EnvSuffix(): bytes {
    Ascii(" }")
  }

  function EnvLine(baseUrl: bytes): bytes {
    EnvPrefix() + EscapeToml(baseUrl) + [QUOTE] + EnvSuffix()
  }

  function ApprovalLine(): bytes { Ascii("approval_policy = \"on-request\"") }

  function SandboxLine(): bytes { Ascii("sandbox_mode = \"workspace-write\"") }

  function TableLine(): bytes { Ascii("[mcp_servers.edgeplane]") }

  function ArgsLine(): bytes { Ascii("args = [\"serve\"]") }

  function StartupLine(): bytes { Ascii("startup_timeout_sec = 30") }

  function ToolLine(): bytes { Ascii("tool_timeout_sec = 60") }

  function BlockLines(command: bytes, baseUrl: bytes): seq<bytes> {
    [Begin(),
     ApprovalLine(),
     SandboxLine(),
     [],
     TableLine(),
     CommandLine(command),
     ArgsLine(),
     StartupLine(),
     ToolLine(),
     EnvLine(baseUrl),
     End()]
  }

  /** Every line followed by a line feed. */
  function Unlines(lines: seq<bytes>): bytes {
    if lines == [] then [] else Unlines(lines[..|lines| - 1]) + lines[|lines| - 1] + [LF]
  }

  function Block(command: bytes, baseUrl: bytes): bytes {
    Unlines(BlockLines(command, baseUrl))
  }

  function EndsWithLf(s: bytes): bool {
    s != [] && s[|s| - 1] == LF
  }

  /** The content of the file after a write over `existing`. */
  function Written(existing: bytes, command: bytes, baseUrl: bytes): bytes {
    if existing == [] then Block(command, baseUrl)
    else
      var kept := Strip(existing);
      (if EndsWithLf(kept) then kept else kept + [LF]) + [LF] + Block(command, baseUrl)
  }

  method WriteCodexConfig(existing: Option<bytes>, command: bytes, baseUrl: bytes) returns (content: bytes)
    ensures content == Written(existing.GetOr([]), command, baseUrl)
  {
    hide Strip, Block;
    content := existing.GetOr([]);
    if content != [] {
      content := StripManagedBlock(content);
      if !EndsWithLf(content) {
        content := content + [LF];
      }
      content := content + [LF];
    }
    var block := RenderManagedBlock(command, baseUrl);
    content := content + block;
  }

  method RenderManagedBlock(command: bytes, baseUrl: bytes) returns (buf: bytes)
    ensures buf == Block(command, baseUrl)
  {
    hide EscapeToml, Ascii, Begin, End, CommandPrefix, EnvLine, Unlines;
    hide ApprovalLine, SandboxLine, TableLine, ArgsLine, StartupLine, ToolLine;
    ghost var all := BlockLines(command, baseUrl);
    NothingRendered(all);
    buf := [];
    buf := PushLine(buf, Begin(), all, 0);
    buf := PushLine(buf, ApprovalLine(), all, 1);
    buf := PushLine(buf, SandboxLine(), all, 2);
    buf := PushLine(buf, [], all, 3);
    buf := PushLine(buf, TableLine(), all, 4);
    buf := PushLine(buf, CommandPrefix() + EscapeToml(command) + [QUOTE], all, 5);
    buf := PushLine(buf, ArgsLine(), all, 6);
    buf := PushLine(buf, StartupLine(), all, 7);
    buf := PushLine(buf, ToolLine(), all, 8);
    buf := PushLine(buf, EnvLine(baseUrl), all, 9);
    buf := PushLine(buf, End(), all, 10);
    assert all[..11] == all;
  }

  lemma NothingRendered(all: seq<bytes>)
    ensures Unlines(all[..0]) == []
  {
  }

  /** `push_str(line)` followed by `push('\n')`. */
  method PushLine(buf: bytes, line: bytes, ghost all: seq<bytes>, ghost k: nat) returns (longer: bytes)
    requires k < |all| && line == all[k] && buf == Unlines(all[..k])
    ensures longer == buf + line + [LF] && longer == Unlines(all[..k + 1])
  {
    longer := buf + line;
    longer := longer + [LF];
    assert all[..k + 1][..k] == all[..k];
  }
}
