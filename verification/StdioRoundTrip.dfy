/** Reading undoes writing, for streams of any length and any mix of formats, and what a
    header block in any form means. */
module StdioRoundTrip {
  import opened Options
  import opened Bytes
  import opened StdioFraming

  // ---------- Lines ----------

  lemma LineEnds(line: bytes, rest: bytes)
    requires OneLine(line)
    ensures LineLen(line + [LF] + rest) == |line| + 1
    ensures (line + [LF] + rest)[..|line| + 1] == line + [LF]
    ensures (line + [LF] + rest)[|line| + 1..] == rest
  {
    var s := line + [LF] + rest;
    assert s[|line|] == LF && forall i :: 0 <= i < |line| ==> s[i] == line[i];
  }

  lemma TrimmedLine(text: bytes)
    requires LeadingSpace(text) == 0 && TrailingSpace(text) == 0
    ensures Trim(text + [LF]) == text && Trim(text + [CR, LF]) == text
  {
    if text != [] {
      LeadingSpaceOfLonger(text, [LF]);
      LeadingSpaceOfLonger(text, [CR, LF]);
      assert text + [CR, LF] == (text + [CR]) + [LF];
      TrimEndDropsAscii(text, LF);
      TrimEndDropsAscii(text + [CR], LF);
      TrimEndDropsAscii(text, CR);
    } else {
      assert text + [LF] == [LF] && text + [CR, LF] == [CR, LF];
      BlankLines();
    }
  }

  lemma BlankLines()
    ensures Trim([LF]) == [] && Trim([CR, LF]) == []
  {
    assert [LF][1..] == [] && [CR, LF][1..] == [LF];
    assert TrimStart([LF]) == [];
  }

  /** White space in front cannot be completed by an ASCII line ending. */
  lemma LeadingSpaceOfLonger(text: bytes, ending: bytes)
    requires text != [] && LeadingSpace(text) == 0
    requires forall i :: 0 <= i < |ending| ==> ending[i] < 128
    ensures LeadingSpace(text + ending) == 0 && TrimStart(text + ending) == text + ending
  {
    var s := text + ending;
    assert s[0] == text[0];
    assert |text| > 1 ==> s[1] == text[1];
    assert |text| > 2 ==> s[2] == text[2];
  }

  // ---------- One JSON line ----------

  lemma {:induction false} ShortTrim(s: bytes)
    ensures |Trim(s)| <= |s|
    ensures Trim(s) <= TrimStart(s)
  {
    TrimStartFacts(s);
    TrimEndFacts(TrimStart(s));
  }

  /** A message line read from anywhere has no outer space and no line feed in it. */
  lemma {:induction false} LineMessagesAreTrimmed(s: bytes)
    requires ReadMessage(s).0.Message? && ReadMessage(s).0.format.JsonLine?
    ensures FitsOneLine(ReadMessage(s).0.text)
    decreases |s|
  {
    hide LineLen, Trim, ValidUtf8, Headers, Lossy;
    var line, rest := s[..LineLen(s)], s[LineLen(s)..];
    if Trim(line) == [] {
      LineMessagesAreTrimmed(rest);
    } else {
      TrimIsIdempotent(line);
      FirstLineShape(s);
      TrimOfLineHasNoFeed(line);
    }
  }

  lemma FirstLineShape(s: bytes)
    requires s != []
    ensures var n := LineLen(s); n > 0 && OneLine(s[..n][..n - 1])
  {
  }

  lemma TrimOfLineHasNoFeed(line: bytes)
    requires line != [] && OneLine(line[..|line| - 1])
    ensures OneLine(Trim(line))
  {
    TrimIsIdempotent(line);
    ShortTrim(line);
    TrimStartFacts(line);
    hide Trim, TrimStart, TrimEnd, LeadingSpace;
    var t := Trim(line);
    var from := |line| - |TrimStart(line)|;
    forall i | 0 <= i < |t|
      ensures t[i] != LF
    {
      assert t[i] == TrimStart(line)[i] == line[from + i];
      if from + i == |line| - 1 {
        assert i == |t| - 1 && !AsciiSpace(t[|t| - 1]);
      }
    }
  }

  /** Exactly the texts a JSON line carries unharmed. */
  ghost predicate FitsOneLine(payload: bytes) {
    payload != [] && payload[0] == OPEN_BRACE && OneLine(payload) && Trim(payload) == payload
  }

  lemma JsonLineReads(payload: bytes, rest: bytes)
    requires ValidUtf8(payload) && FitsOneLine(payload)
    ensures ReadMessage(Frame(payload, JsonLine) + rest) == (Message(payload, JsonLine), rest)
  {
    TrimmedIff(payload);
    LineEnds(payload, rest);
    TrimmedLine(payload);
    AsciiIsValid([LF]);
    ValidConcat(payload, [LF]);
  }

  // ---------- One header block ----------

  lemma PrefixBytes()
    ensures var p := LengthPrefix();
            && |p| == 16 && p[0] == 0x43 && p[14] == COLON && p[15] == 0x20
            && p[..14] == Ascii("Content-Length") && COLON !in p[..14] && LF !in p
            && forall i :: 0 <= i < 16 ==> p[i] < 128
  {
    assert LengthPrefix() == [67, 111, 110, 116, 101, 110, 116, 45, 76, 101, 110, 103, 116, 104, 58, 32];
  }

  lemma HeaderField(n: nat)
    ensures FieldOf(LengthPrefix() + Decimal(n)) == if n <= USIZE_MAX then Length(n) else Unparsable
    ensures Trim(LengthPrefix() + Decimal(n)) == LengthPrefix() + Decimal(n)
  {
    hide LengthPrefix, Ascii, Decimal, ParseUnsigned, Trim;
    var prefix, digits := LengthPrefix(), Decimal(n);
    var line := prefix + digits;
    PrefixBytes();
    DigitsAreNoSpace(line, digits);
    TrimmedIff(line);
    assert forall i :: 0 <= i < 14 ==> line[i] == prefix[..14][i];
    assert line[14] == COLON;
    FirstColon(line, 14);
    assert line[..14] == prefix[..14];
    NameIsTrimmed();
    assert line[15..] == [0x20] + digits;
    SpaceThenDigits(digits);
    ParseDecimal(n, USIZE_MAX);
  }

  lemma FirstColon(line: bytes, k: nat)
    requires k < |line| && line[k] == COLON && forall i :: 0 <= i < k ==> line[i] != COLON
    ensures IndexOf(line, COLON) == k
  {
  }

  lemma NameIsTrimmed()
    ensures Trim(Ascii("Content-Length")) == Ascii("Content-Length")
  {
    hide Trim;
    var name := Ascii("Content-Length");
    assert |name| == 14 && name[0] == 0x43 && name[13] == 0x68;
    TrimmedIff(name);
  }

  lemma DigitsAreNoSpace(line: bytes, digits: bytes)
    requires digits != [] && AllDigits(digits) && |line| >= |digits| && line[|line| - |digits|..] == digits
    requires line[0] < 128 && !AsciiSpace(line[0])
    ensures LeadingSpace(line) == 0 && TrailingSpace(line) == 0
  {
    assert line[|line| - 1] == digits[|digits| - 1];
    assert IsDigit(line[|line| - 1]);
  }

  lemma SpaceThenDigits(digits: bytes)
    requires digits != [] && AllDigits(digits)
    ensures Trim([0x20] + digits) == digits
  {
    var s := [0x20] + digits;
    assert s[1..] == digits && LeadingSpace(s) == 1;
    assert IsDigit(digits[0]);
    DigitsAreNoSpace(digits, digits);
    TrimmedIff(digits);
  }

  /** A header block made by the writer, in front of anything. */
  lemma WrittenHeaderReads(n: nat, after: bytes)
    ensures ReadMessage(LengthPrefix() + Decimal(n) + Crlf2() + after) ==
            if n > USIZE_MAX then (Failed(BadLength), [CR, LF] + after)
            else if |after| < n then (Failed(EofInBody), [])
            else (Message(Lossy(after[..n]), ContentLength), after[n..])
  {
    hide LengthPrefix, Ascii, Decimal, FieldOf, Trim, ValidUtf8, LineLen, Lossy;
    var text := LengthPrefix() + Decimal(n);
    var line := text + [CR];
    var tail := [CR, LF] + after;
    var s := LengthPrefix() + Decimal(n) + Crlf2() + after;
    assert s == line + [LF] + tail;
    HeaderTextIsPlain(n);
    LineEnds(line, tail);
    assert line + [LF] == text + [CR, LF];
    HeaderField(n);
    TrimmedIff(text);
    TrimmedLine(text);
    if n <= USIZE_MAX {
      BlankLineEndsHeaders(after, Some(n));
      assert Headers(text, tail, None) == Headers(tail[..2], tail[2..], Some(n));
    }
  }

  lemma HeaderTextIsPlain(n: nat)
    ensures var text := LengthPrefix() + Decimal(n);
            && text[0] == 0x43 && OneLine(text + [CR]) && ValidUtf8(text + [CR] + [LF])
  {
    hide LengthPrefix, Ascii, Decimal;
    var prefix, digits := LengthPrefix(), Decimal(n);
    PrefixBytes();
    assert forall i :: 0 <= i < |digits| ==> IsDigit(digits[i]);
    AsciiIsValid(prefix + digits + [CR] + [LF]);
  }

  lemma BlankLineEndsHeaders(after: bytes, length: Option<nat>)
    ensures var s := [CR, LF] + after;
            && s != [] && LineLen(s) == 2 && ValidUtf8(s[..2])
            && Headers(s[..2], s[2..], length)
                 == (if length.Some? then Body(length.value) else HeaderFailed(MissingLength), after)
  {
    var s := [CR, LF] + after;
    assert s == [CR] + [LF] + after;
    LineEnds([CR], after);
    assert s[..2] == [CR, LF];
    AsciiIsValid([CR, LF]);
    BlankLines();
  }

  // ---------- Streams ----------

  /** The texts each format carries unharmed. */
  ghost predicate Carries(payload: bytes, format: Format) {
    match format
    case ContentLength => |payload| <= USIZE_MAX
    case JsonLine => FitsOneLine(payload)
  }

  /** A text comes back from in front of any continuation, consuming exactly its own bytes,
      if and only if its format carries it. */
  lemma FrameRoundTrip(payload: bytes, format: Format, rest: bytes)
    requires ValidUtf8(payload)
    ensures ReadMessage(Frame(payload, format) + rest) == (Message(payload, format), rest) <==> Carries(payload, format)
  {
    match format {
      case JsonLine =>
        if FitsOneLine(payload) {
          JsonLineReads(payload, rest);
        } else if ReadMessage(Frame(payload, JsonLine) + rest) == (Message(payload, JsonLine), rest) {
          LineMessagesAreTrimmed(Frame(payload, JsonLine) + rest);
          assert false;
        }
      case ContentLength =>
        var after := payload + rest;
        assert Frame(payload, format) + rest == LengthPrefix() + Decimal(|payload|) + Crlf2() + after;
        WrittenHeaderReads(|payload|, after);
        LossyIsIdentity(payload);
        assert after[..|payload|] == payload && after[|payload|..] == rest;
    }
  }

  datatype Sent = Sent(payload: bytes, format: Format)

  function WriteAll(sent: seq<Sent>): bytes {
    if sent == [] then [] else Frame(sent[0].payload, sent[0].format) + WriteAll(sent[1..])
  }

  /** Messages up to the end of the stream or the first failure, and which of them it was. */
  function ReadAll(s: bytes): (seq<Sent>, ReadResult)
    decreases |s|
  {
    var (result, rest) := ReadMessage(s);
    if result.Message? then
      var (more, end) := ReadAll(rest);
      ([Sent(result.text, result.format)] + more, end)
    else ([], result)
  }

  /** What the format does not carry is not read back, whatever follows. */
  lemma NotCarriedIsNotRead(payload: bytes, format: Format, rest: bytes)
    requires ValidUtf8(payload) && !Carries(payload, format)
    ensures ReadMessage(Frame(payload, format) + rest).0 != Message(payload, format)
  {
    hide ReadMessage, FitsOneLine, ValidUtf8;
    match format {
      case JsonLine =>
        if ReadMessage(Frame(payload, JsonLine) + rest).0 == Message(payload, JsonLine) {
          LineMessagesAreTrimmed(Frame(payload, JsonLine) + rest);
          assert false;
        }
      case ContentLength =>
        assert Frame(payload, format) + rest == LengthPrefix() + Decimal(|payload|) + Crlf2() + (payload + rest);
        WrittenHeaderReads(|payload|, payload + rest);
    }
  }

  /** Messages in any mix of formats are read back exactly, up to end of file, if and only if
      each is one its format carries. */
  lemma {:induction false} StreamRoundTrip(sent: seq<Sent>)
    requires forall i :: 0 <= i < |sent| ==> ValidUtf8(sent[i].payload)
    ensures ReadAll(WriteAll(sent)) == (sent, EndOfInput)
            <==> forall i :: 0 <= i < |sent| ==> Carries(sent[i].payload, sent[i].format)
    decreases |sent|
  {
    hide ReadMessage, Frame, ValidUtf8, Carries;
    if sent == [] {
      EmptyStream();
    } else {
      var m, rest := sent[0], WriteAll(sent[1..]);
      StreamRoundTrip(sent[1..]);
      if Carries(m.payload, m.format) {
        FrameRoundTrip(m.payload, m.format, rest);
        assert ReadAll(WriteAll(sent)) == ([Sent(m.payload, m.format)] + ReadAll(rest).0, ReadAll(rest).1);
        HeadAndTail(ReadAll(rest).0, sent);
        assert forall i :: 0 < i < |sent| ==> sent[i] == sent[1..][i - 1];
      } else {
        NotCarriedIsNotRead(m.payload, m.format, rest);
      }
    }
  }

  lemma HeadAndTail(more: seq<Sent>, sent: seq<Sent>)
    requires sent != []
    ensures [sent[0]] + more == sent <==> more == sent[1..]
  {
    assert ([sent[0]] + more)[1..] == more;
  }

  lemma EmptyStream()
    ensures ReadMessage([]) == (EndOfInput, [])
  {
  }

  // ---------- Header blocks in any form ----------

  /** A line as it stands in the stream. */
  ghost predicate RawLine(l: bytes) {
    l != [] && l[|l| - 1] == LF && OneLine(l[..|l| - 1]) && ValidUtf8(l)
  }

  /** Header lines: not blank, and each readable as far as it is a length. */
  ghost predicate HeaderLines(lines: seq<bytes>) {
    forall i :: 0 <= i < |lines| ==> RawLine(lines[i]) && !Blank(lines[i]) && !FieldOf(lines[i]).Unparsable?
  }

  function Text(lines: seq<bytes>): bytes {
    if lines == [] then [] else lines[0] + Text(lines[1..])
  }

  /** `k` is the last line naming a length; -1 when there is none. */
  ghost predicate LastLength(lines: seq<bytes>, k: int) {
    && -1 <= k < |lines|
    && (k >= 0 ==> FieldOf(lines[k]).Length?)
    && forall j :: k < j < |lines| ==> !FieldOf(lines[j]).Length?
  }

  lemma RawLineReads(l: bytes, rest: bytes)
    requires RawLine(l)
    ensures LineLen(l + rest) == |l| && (l + rest)[..|l|] == l && (l + rest)[|l|..] == rest
  {
    var body := l[..|l| - 1];
    assert l == body + [LF];
    LineEnds(body, rest);
  }

  /** Reading on through the remaining header lines to the blank one. */
  lemma {:induction false} HeadersReadOn(line: bytes, lines: seq<bytes>, blank: bytes, after: bytes,
                                         length: Option<nat>, k: int)
    requires !Blank(line) && !FieldOf(line).Unparsable? && HeaderLines(lines)
    requires RawLine(blank) && Blank(blank) && LastLength(lines, k)
    ensures var known := if FieldOf(line).Length? then Some(FieldOf(line).n) else length;
            Headers(line, Text(lines) + blank + after, length) ==
            (if k >= 0 then Body(FieldOf(lines[k]).n)
             else if known.Some? then Body(known.value) else HeaderFailed(MissingLength), after)
    decreases |lines|
  {
    hide FieldOf, Blank, ValidUtf8, LineLen;
    var known := if FieldOf(line).Length? then Some(FieldOf(line).n) else length;
    if lines == [] {
      assert Text(lines) + blank + after == blank + after;
      RawLineReads(blank, after);
    } else {
      var next, more := lines[0], lines[1..];
      var rest := Text(more) + blank + after;
      assert Text(lines) + blank + after == next + rest;
      RawLineReads(next, rest);
      var k' := if k >= 1 then k - 1 else -1;
      assert LastLength(more, k');
      HeadersReadOn(next, more, blank, after, known, k');
    }
  }

  /** What the lines after the first say of the length. */
  lemma LinesAfterFirst(lines: seq<bytes>, k: int)
    requires lines != [] && HeaderLines(lines) && LastLength(lines, k)
    ensures RawLine(lines[0]) && !Blank(lines[0]) && !FieldOf(lines[0]).Unparsable? && HeaderLines(lines[1..])
    ensures LastLength(lines[1..], if k >= 1 then k - 1 else -1)
    ensures -1 <= k < |lines| && (k < 0 ==> !FieldOf(lines[0]).Length?) && (k >= 0 ==> FieldOf(lines[k]).Length?)
  {
    hide FieldOf, RawLine, Blank;
  }

  /** A header block in any order and letter case: the body is as long as the last
      Content-Length line says, and without one there is no message. */
  lemma HeaderBlockMeaning(lines: seq<bytes>, blank: bytes, after: bytes, k: int)
    requires lines != [] && HeaderLines(lines) && Trim(lines[0])[0] != OPEN_BRACE
    requires RawLine(blank) && Blank(blank) && LastLength(lines, k)
    ensures ReadMessage(Text(lines) + blank + after) ==
            if k < 0 then (Failed(MissingLength), after)
            else
              var n := FieldOf(lines[k]).n;
              if |after| < n then (Failed(EofInBody), []) else (Message(Lossy(after[..n]), ContentLength), after[n..])
  {
    hide Lossy, FieldOf, Trim, Headers, ReadMessage, RawLine, HeaderLines, LastLength, Blank;
    var rest := Text(lines[1..]) + blank + after;
    assert Text(lines) + blank + after == lines[0] + rest;
    LinesAfterFirst(lines, k);
    BlockStarts(lines[0], rest);
    TrimmedSaysTheSame(lines[0]);
    var k' := if k >= 1 then k - 1 else -1;
    HeadersReadOn(Trim(lines[0]), lines[1..], blank, after, None, k');
  }

  lemma BlockStarts(l: bytes, rest: bytes)
    requires RawLine(l) && !Blank(l) && Trim(l)[0] != OPEN_BRACE
    ensures ReadMessage(l + rest) ==
            var (header, body) := Headers(Trim(l), rest, None);
            match header
            case HeaderFailed(e) => (Failed(e), body)
            case Body(n) =>
              if |body| < n then (Failed(EofInBody), []) else (Message(Lossy(body[..n]), ContentLength), body[n..])
  {
    hide Lossy, ValidUtf8, LineLen, Trim, Headers;
    RawLineReads(l, rest);
  }

  // ---------- Header blocks cut off ----------

  /** What a block says whose last line `p` the end of file cuts off, when the lines before
      named the length `known` last. */
  function CutOutcome(p: bytes, known: Option<nat>): HeaderResult {
    if p == [] then HeaderFailed(EofInHeaders)
    else if !ValidUtf8(p) then HeaderFailed(NotUtf8)
    else if Blank(p) then (if known.Some? then Body(known.value) else HeaderFailed(MissingLength))
    else HeaderFailed(if FieldOf(p).Unparsable? then BadLength else EofInHeaders)
  }

  lemma LastLineCut(line: bytes, p: bytes, length: Option<nat>)
    requires !Blank(line) && !FieldOf(line).Unparsable? && OneLine(p)
    ensures Headers(line, p, length)
              == (CutOutcome(p, if FieldOf(line).Length? then Some(FieldOf(line).n) else length), [])
  {
    hide FieldOf, Blank, ValidUtf8;
    if p != [] {
      FirstLf(p, []);
      assert p[..LineLen(p)] == p && p[LineLen(p)..] == [];
    }
  }

  lemma {:induction false} CutHeaders(line: bytes, lines: seq<bytes>, p: bytes, length: Option<nat>, k: int)
    requires !Blank(line) && !FieldOf(line).Unparsable? && HeaderLines(lines) && OneLine(p) && LastLength(lines, k)
    ensures var known := if FieldOf(line).Length? then Some(FieldOf(line).n) else length;
            Headers(line, Text(lines) + p, length)
                == (CutOutcome(p, if k >= 0 then Some(FieldOf(lines[k]).n) else known), [])
    decreases |lines|
  {
    hide FieldOf, Blank, ValidUtf8, LineLen, CutOutcome, OneLine;
    var known := if FieldOf(line).Length? then Some(FieldOf(line).n) else length;
    if lines == [] {
      assert Text(lines) + p == p;
      LastLineCut(line, p, length);
    } else {
      var next, more := lines[0], lines[1..];
      assert Text(lines) + p == next + (Text(more) + p);
      RawLineReads(next, Text(more) + p);
      var k' := if k >= 1 then k - 1 else -1;
      assert LastLength(more, k');
      CutHeaders(next, more, p, known, k');
    }
  }

  lemma CutBlockReads(lines: seq<bytes>, p: bytes, k: int)
    requires lines != [] && HeaderLines(lines) && Trim(lines[0])[0] != OPEN_BRACE && OneLine(p) && LastLength(lines, k)
    ensures ReadMessage(Text(lines) + p) ==
            match CutOutcome(p, if k >= 0 then Some(FieldOf(lines[k]).n) else None)
            case HeaderFailed(e) => (Failed(e), [])
            case Body(n) => if n > 0 then (Failed(EofInBody), []) else (Message([], ContentLength), [])
  {
    hide FieldOf, Trim, Headers, ReadMessage, RawLine, CutOutcome, OneLine, HeaderLines, LastLength, Blank;
    var rest := Text(lines[1..]) + p;
    assert Text(lines) + p == lines[0] + rest;
    LinesAfterFirst(lines, k);
    BlockStarts(lines[0], rest);
    TrimmedSaysTheSame(lines[0]);
    var k' := if k >= 1 then k - 1 else -1;
    CutHeaders(Trim(lines[0]), lines[1..], p, None, k');
    var none: bytes := [];
    assert Lossy(none) == none && none[..0] == none;
  }

  /** The line a block begins with, which may be the one cut off. */
  function FirstLine(lines: seq<bytes>, p: bytes): bytes {
    if lines == [] then p else lines[0]
  }

  /** Cut inside its first line, or before it, a block is no message. */
  lemma CutFirstLine(p: bytes)
    requires OneLine(p) && (Blank(p) || Trim(p)[0] != OPEN_BRACE)
    ensures var r := ReadMessage(p); r.1 == [] && (r.0.Failed? || (r.0.EndOfInput? && Blank(p)))
  {
    hide FieldOf, ValidUtf8;
    FirstLf(p, []);
    if p != [] {
      assert LineLen(p) == |p| && p[..LineLen(p)] == p && p[LineLen(p)..] == [];
      TrimmedSaysTheSame(p);
    }
  }

  /** A header block cut off anywhere by the end of file is read as a message if and only if
      the cut falls inside its blank line and the length named last is zero. Otherwise it is an
      error, or the end of the input when nothing but white space was left of it. */
  lemma CutBlockIsMessageIff(lines: seq<bytes>, p: bytes, k: int)
    requires HeaderLines(lines) && OneLine(p) && LastLength(lines, k)
    requires Blank(FirstLine(lines, p)) || Trim(FirstLine(lines, p))[0] != OPEN_BRACE
    ensures var r := ReadMessage(Text(lines) + p);
            && r.1 == []
            && (r.0.Failed? || r.0 == Message([], ContentLength) || (r.0.EndOfInput? && lines == [] && Blank(p)))
            && (r.0.Message? <==> p != [] && ValidUtf8(p) && Blank(p) && k >= 0 && FieldOf(lines[k]).n == 0)
  {
    hide FieldOf, Trim, ReadMessage, ValidUtf8;
    if lines == [] {
      assert Text(lines) + p == p;
      CutFirstLine(p);
    } else {
      assert !Blank(lines[0]);
      hide HeaderLines;
      CutBlockReads(lines, p, k);
    }
  }

  /** A block cut off between two lines is an error. */
  lemma CutBlockIsError(lines: seq<bytes>)
    requires lines != [] && HeaderLines(lines) && Trim(lines[0])[0] != OPEN_BRACE
    ensures ReadMessage(Text(lines)) == (Failed(EofInHeaders), [])
  {
    hide FieldOf, Trim, ReadMessage, HeaderLines;
    var k := FindLastLength(lines);
    CutBlockReads(lines, [], k);
    assert Text(lines) + [] == Text(lines);
  }

  lemma {:induction false} FindLastLength(lines: seq<bytes>) returns (k: int)
    ensures LastLength(lines, k)
  {
    hide FieldOf;
    if lines == [] {
      k := -1;
    } else if FieldOf(lines[|lines| - 1]).Length? {
      k := |lines| - 1;
    } else {
      k := FindLastLength(lines[..|lines| - 1]);
    }
  }

  /** The header of an empty message, cut between the two bytes of its blank line, is taken
      for the whole message. */
  lemma CutInsideBlankLine()
    ensures ReadMessage(LengthPrefix() + Decimal(0) + [CR, LF] + [CR]) == (Message([], ContentLength), [])
  {
    hide FieldOf, ReadMessage, LengthPrefix, Decimal;
    var text := LengthPrefix() + Decimal(0);
    var line := text + [CR, LF];
    HeaderTextIsPlain(0);
    HeaderField(0);
    assert line == text + [CR] + [LF] && line[..|line| - 1] == text + [CR];
    assert Trim(line) == text && FieldOf(line) == FieldOf(text) by { EndingTrimmed(text, line); }
    assert Text([line]) == line by { assert [line][1..] == []; }
    assert Blank([CR]) && ValidUtf8([CR]) by { BlankCr(); }
    assert LastLength([line], 0);
    CutBlockIsMessageIff([line], [CR], 0);
  }

  lemma BlankCr()
    ensures Blank([CR]) && ValidUtf8([CR])
  {
    assert [CR][1..] == [];
    assert TrimStart([CR]) == [];
  }

  lemma EndingTrimmed(text: bytes, line: bytes)
    requires Trim(text) == text && line == text + [CR, LF]
    ensures Trim(line) == text && FieldOf(line) == FieldOf(text)
  {
    TrimmedIff(text);
    TrimmedLine(text);
    TrimmedSaysTheSame(line);
  }
}
