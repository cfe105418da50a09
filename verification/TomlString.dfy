/** The values edgeplane writes into the managed block are TOML basic strings, and the block
    is one marked region whatever the values are. */
module TomlString {
  import opened Options
  import opened Bytes
  import opened ManagedBlock
  import opened ManagedBlockFixpoint

  // ---------- Escaping ----------

  /** One substitution per character. */
  function EscapeEach(value: bytes): bytes {
    if value == [] then []
    else
      var b := value[0];
      (if b == BACKSLASH || b == QUOTE then [BACKSLASH, b] else [b]) + EscapeEach(value[1..])
  }

  lemma {:induction false} ReplaceConcat(a: bytes, b: bytes, from: byte, to: bytes)
    ensures Replace(a + b, from, to) == Replace(a, from, to) + Replace(b, from, to)
  {
    if a == [] {
      assert a + b == b;
    } else {
      assert (a + b)[1..] == a[1..] + b;
      ReplaceConcat(a[1..], b, from, to);
      var h := if a[0] == from then to else [a[0]];
      assert h + (Replace(a[1..], from, to) + Replace(b, from, to))
          == h + Replace(a[1..], from, to) + Replace(b, from, to);
    }
  }

  lemma ReplaceShort(b: byte, c: byte, from: byte, to: bytes)
    requires b != from && c != from
    ensures Replace([b, c], from, to) == [b, c]
    ensures Replace([b], from, to) == [b] && Replace([from], from, to) == to
  {
    assert [b, c][1..] == [c] && [c][1..] == [] && [b][1..] == [] && [from][1..] == [];
    assert Replace([c], from, to) == [c] + Replace([], from, to);
  }

  /** The two replacements in a row are that one substitution. */
  lemma {:induction false} TwoReplacesAreOne(value: bytes)
    ensures EscapeToml(value) == EscapeEach(value)
  {
    if value != [] {
      var first := if value[0] == BACKSLASH then [BACKSLASH, BACKSLASH] else [value[0]];
      ReplaceConcat(first, Replace(value[1..], BACKSLASH, [BACKSLASH, BACKSLASH]), QUOTE, [BACKSLASH, QUOTE]);
      ReplaceShort(BACKSLASH, BACKSLASH, QUOTE, [BACKSLASH, QUOTE]);
      if value[0] != QUOTE {
        ReplaceShort(value[0], value[0], QUOTE, [BACKSLASH, QUOTE]);
      }
      TwoReplacesAreOne(value[1..]);
    }
  }

  // ---------- Decoding ----------

  /** Characters a basic string may not contain as they are. */
  predicate Control(b: byte) {
    (b < 0x20 && b != 9) || b == 0x7F
  }

  /** The character a one-letter escape stands for. */
  function Unescape(b: byte): Option<byte> {
    match b
    case 0x22 => Some(QUOTE)
    case 0x5C => Some(BACKSLASH)
    case 0x62 => Some(8)
    case 0x74 => Some(9)
    case 0x6E => Some(10)
    case 0x66 => Some(12)
    case 0x72 => Some(13)
    case _ => None
  }

  /** A TOML basic string read from just after its opening quote: its value, and what follows
      the closing quote. Numeric escapes, which are never written here, are not decoded. */
  function ReadBasicString(s: bytes): Option<(bytes, bytes)>
    decreases |s|
  {
    if s == [] then None
    else if s[0] == QUOTE then Some(([], s[1..]))
    else if Control(s[0]) then None
    else if s[0] == BACKSLASH then
      if |s| < 2 || Unescape(s[1]).None? then None
      else
        match ReadBasicString(s[2..])
        case None => None
        case Some((value, rest)) => Some(([Unescape(s[1]).value] + value, rest))
    else
      match ReadBasicString(s[1..])
      case None => None
      case Some((value, rest)) => Some(([s[0]] + value, rest))
  }

  ghost predicate NoControls(value: bytes) {
    forall i :: 0 <= i < |value| ==> !Control(value[i])
  }

  /** The closing quote of an escaped value is the first unescaped one, and decoding gives
      the value back; with a control character in it no value is read at all. */
  lemma {:induction false} EscapedReadsBack(value: bytes, rest: bytes)
    ensures ReadBasicString(EscapeToml(value) + [QUOTE] + rest)
            == if NoControls(value) then Some((value, rest)) else None
    decreases |value|
  {
    TwoReplacesAreOne(value);
    if value == [] {
      assert [] + [QUOTE] + rest == [QUOTE] + rest;
    } else {
      var tail := value[1..];
      TwoReplacesAreOne(tail);
      EscapedReadsBack(tail, rest);
      var more := EscapeEach(tail) + [QUOTE] + rest;
      assert value == [value[0]] + tail;
      assert NoControls(value) <==> !Control(value[0]) && NoControls(tail) by {
        assert forall i :: 0 <= i < |tail| ==> tail[i] == value[i + 1];
      }
      var s := EscapeEach(value) + [QUOTE] + rest;
      if value[0] == BACKSLASH || value[0] == QUOTE {
        assert s == [BACKSLASH, value[0]] + more;
        assert s[2..] == more;
      } else {
        assert s == [value[0]] + more;
        assert s[1..] == more;
      }
    }
  }

  /** Reading the rendered command line gives the command and nothing else. */
  lemma CommandLineReadsBack(command: bytes)
    ensures CommandLine(command)[|CommandPrefix()|..] == EscapeToml(command) + [QUOTE]
    ensures ReadBasicString(CommandLine(command)[|CommandPrefix()|..])
            == if NoControls(command) then Some((command, [])) else None
  {
    hide EscapeToml, CommandPrefix, NoControls;
    EscapedReadsBack(command, []);
    assert EscapeToml(command) + [QUOTE] + [] == EscapeToml(command) + [QUOTE];
  }

  /** ... and reading the rendered URL gives the URL, with the end of its table left over. */
  lemma EnvLineReadsBack(baseUrl: bytes)
    ensures ReadBasicString(EnvLine(baseUrl)[|EnvPrefix()|..])
            == if NoControls(baseUrl) then Some((baseUrl, EnvSuffix())) else None
  {
    hide EscapeToml, EnvPrefix, EnvSuffix, NoControls;
    EscapedReadsBack(baseUrl, EnvSuffix());
    assert EnvLine(baseUrl)[|EnvPrefix()|..] == EscapeToml(baseUrl) + [QUOTE] + EnvSuffix();
  }

  // ---------- The block is one region ----------

  lemma {:induction false} EscapeIsOneLine(value: bytes)
    requires OneLine(value)
    ensures OneLine(EscapeEach(value))
  {
    if value != [] {
      EscapeIsOneLine(value[1..]);
    }
  }

  /** A line opening with another visible ASCII character than '#' is no marker. */
  lemma NoEndMarker(l: bytes)
    requires l == [] || (l[0] < 128 && !AsciiSpace(l[0]) && l[0] != HASH)
    ensures !IsEnd(l)
  {
    EndShape();
    if l != [] {
      assert TrimStart(l) == l;
      TrimEndFacts(l);
    }
  }

  lemma MarkerStartShape()
    ensures OneLine(MarkerStart()) && MarkerStart() != [] && MarkerStart()[0] == HASH
  {
  }

  lemma EndShape()
    ensures End() != [] && End()[0] == HASH && IsEnd(End())
    ensures OneLine(End())
  {
    hide Trim, MarkerStart;
    MarkerStartShape();
    var close := Ascii("(end)");
    assert End()[|End()| - 1] == close[|close| - 1] == 0x29;
    TrimmedIff(End());
    EndIs(End());
  }

  lemma BeginShape()
    ensures IsBegin(Begin()) && OneLine(Begin())
  {
    hide Trim, MarkerStart;
    MarkerStartShape();
    var close := Ascii("(begin)");
    assert Begin()[|Begin()| - 1] == close[|close| - 1] == 0x29;
    TrimmedIff(Begin());
    BeginIs(Begin());
  }

  lemma ApprovalLineShape()
    ensures OneLine(ApprovalLine()) && ApprovalLine() != [] && ApprovalLine()[0] == 0x61
  {
  }

  lemma SandboxLineShape()
    ensures OneLine(SandboxLine()) && SandboxLine() != [] && SandboxLine()[0] == 0x73
  {
  }

  lemma TableAndArgsLines()
    ensures OneLine(TableLine()) && TableLine() != [] && TableLine()[0] == 0x5B
    ensures OneLine(ArgsLine()) && ArgsLine() != [] && ArgsLine()[0] == 0x61
  {
  }

  lemma TimeoutLines()
    ensures OneLine(StartupLine()) && StartupLine() != [] && StartupLine()[0] == 0x73
    ensures OneLine(ToolLine()) && ToolLine() != [] && ToolLine()[0] == 0x74
  {
  }

  lemma ValueLines(command: bytes, baseUrl: bytes)
    requires OneLine(command) && OneLine(baseUrl)
    ensures OneLine(CommandLine(command)) && CommandLine(command) != [] && CommandLine(command)[0] == 0x63
    ensures OneLine(EnvLine(baseUrl)) && EnvLine(baseUrl) != [] && EnvLine(baseUrl)[0] == 0x65
  {
    hide EscapeToml;
    TwoReplacesAreOne(command);
    TwoReplacesAreOne(baseUrl);
    EscapeIsOneLine(command);
    EscapeIsOneLine(baseUrl);
  }

  /** Whatever the command and the URL are, as long as neither contains a line feed. */
  lemma BlockIsRegion(command: bytes, baseUrl: bytes)
    requires OneLine(command) && OneLine(baseUrl)
    ensures IsRegion(BlockLines(command, baseUrl))
  {
    hide IsBegin, IsEnd, CommandLine, EnvLine, ApprovalLine, SandboxLine, TableLine, ArgsLine, StartupLine, ToolLine,
        Begin, End;
    BeginShape();
    EndShape();
    ApprovalLineShape();
    SandboxLineShape();
    TableAndArgsLines();
    TimeoutLines();
    ValueLines(command, baseUrl);
    var block := BlockLines(command, baseUrl);
    forall e | 0 < e < |block| - 1
      ensures !IsEnd(block[e])
    {
      NoEndMarker(block[e]);
    }
  }

  /** Rewriting the configuration is idempotent: on every file but the empty one, unless a
      kept line ends in a carriage return of its own. */
  lemma RewriteIsIdempotent(x: bytes, command: bytes, baseUrl: bytes)
    requires OneLine(command) && OneLine(baseUrl)
    ensures Written(Written(x, command, baseUrl), command, baseUrl) == Written(x, command, baseUrl)
            <==> x != [] && NoCrLf(Strip(x))
    ensures x != [] ==> (Strip(Written(x, command, baseUrl)) == Strip(x) <==> NoCrLf(Strip(x)))
  {
    hide Written, Strip, BlockLines;
    BlockIsRegion(command, baseUrl);
    WriteIsFixedPoint(x, command, baseUrl);
    if x != [] {
      StripOfWritten(x, command, baseUrl);
    }
  }
}
