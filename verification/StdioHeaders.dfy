/** Header lines of the MCP stream in letters: which names are Content-Length, what is written,
    and what is read, byte by byte. */
module StdioHeaders {
  import opened Options
  import opened Bytes
  import opened StdioFraming
  import opened StdioRoundTrip

  // ---------- Trimming around a colon ----------

  lemma {:induction false} TrimStartAtColon(name: bytes, rest: bytes)
    ensures TrimStart(name + [COLON] + rest) == TrimStart(name) + [COLON] + rest
    decreases |name|
  {
    var s := name + [COLON] + rest;
    LeadingBeforeColon(name, rest);
    var n := LeadingSpace(name);
    if n > 0 {
      assert s[n..] == name[n..] + [COLON] + rest;
      TrimStartAtColon(name[n..], rest);
    }
  }

  lemma LeadingBeforeColon(name: bytes, rest: bytes)
    ensures LeadingSpace(name + [COLON] + rest) == LeadingSpace(name)
  {
    var s := name + [COLON] + rest;
    assert s[|name|] == COLON;
    assert |name| > 0 ==> s[0] == name[0];
    assert |name| > 1 ==> s[1] == name[1];
    assert |name| > 2 ==> s[2] == name[2];
  }

  lemma {:induction false} TrimEndAtColon(front: bytes, value: bytes)
    ensures TrimEnd(front + [COLON] + value) == front + [COLON] + TrimEnd(value)
    decreases |value|
  {
    var s := front + [COLON] + value;
    TrailingAfterColon(front, value);
    var n := TrailingSpace(value);
    if n > 0 {
      assert s[..|s| - n] == front + [COLON] + value[..|value| - n];
      TrimEndAtColon(front, value[..|value| - n]);
    }
  }

  lemma TrailingAfterColon(front: bytes, value: bytes)
    ensures TrailingSpace(front + [COLON] + value) == TrailingSpace(value)
  {
    var s, k := front + [COLON] + value, |value|;
    assert s[|s| - k - 1] == COLON;
    assert k > 0 ==> s[|s| - 1] == value[k - 1];
    assert k > 1 ==> s[|s| - 2] == value[k - 2];
    assert k > 2 ==> s[|s| - 3] == value[k - 3];
  }

  /** Trimming the end first changes nothing. */
  lemma {:induction false} TrimOfTrimEnd(s: bytes)
    ensures Trim(TrimEnd(s)) == Trim(s)
    decreases |s|
  {
    var n := LeadingSpace(s);
    TrimEndFacts(s);
    if n == 0 {
      LeadingOfPrefix(s, TrimEnd(s));
      TrimmedIff(TrimEnd(s));
    } else {
      TrimEndAfterSpace(s, n);
      TrimOfTrimEnd(s[n..]);
      if TrimEnd(s[n..]) != [] {
        var t := s[..n] + TrimEnd(s[n..]);
        assert LeadingSpace(t) == n && t[n..] == TrimEnd(s[n..]);
      }
    }
  }

  lemma LeadingOfPrefix(s: bytes, p: bytes)
    requires p <= s && LeadingSpace(s) == 0
    ensures LeadingSpace(p) == 0
  {
  }

  /** Trimming the end of a text that starts with a white-space character. */
  lemma {:induction false} TrimEndAfterSpace(s: bytes, n: nat)
    requires LeadingSpace(s) == n > 0
    ensures TrimEnd(s) == if TrimEnd(s[n..]) == [] then [] else s[..n] + TrimEnd(s[n..])
    decreases |s|
  {
    hide LeadingSpace, TrailingSpace;
    var rest := s[n..];
    TrailingAfterSpace(s, n);
    if rest != [] {
      var m := TrailingSpace(rest);
      if m > 0 {
        var shorter := s[..|s| - m];
        assert shorter[n..] == rest[..|rest| - m];
        StillLeading(s, shorter, n);
        TrimEndAfterSpace(shorter, n);
        assert shorter[..n] == s[..n];
      } else {
        assert s == s[..n] + rest;
      }
    } else {
      assert TrimEnd(s) == TrimEnd(s[..0]);
    }
  }

  lemma StillLeading(s: bytes, p: bytes, n: nat)
    requires p <= s && LeadingSpace(s) == n > 0 && |p| >= n
    ensures LeadingSpace(p) == n
  {
  }

  lemma TrailingAfterSpace(s: bytes, n: nat)
    requires LeadingSpace(s) == n > 0
    ensures |s| > n ==> TrailingSpace(s) == TrailingSpace(s[n..])
    ensures |s| == n ==> TrailingSpace(s) == n
  {
    var rest, k := s[n..], |s| - n;
    assert k > 0 ==> rest[k - 1] == s[|s| - 1];
    assert k > 1 ==> rest[k - 2] == s[|s| - 2];
    assert k > 2 ==> rest[k - 3] == s[|s| - 3];
  }

  // ---------- Which names are Content-Length ----------

  /** The letters of the name, in either case. */
  const NAME_LETTERS: seq<(byte, byte)> :=
    [(0x43, 0x63), (0x4F, 0x6F), (0x4E, 0x6E), (0x54, 0x74), (0x45, 0x65), (0x4E, 0x6E), (0x54, 0x74), (0x2D, 0x2D),
     (0x4C, 0x6C), (0x45, 0x65), (0x4E, 0x6E), (0x47, 0x67), (0x54, 0x74), (0x48, 0x68)]

  predicate SpellsLength(name: bytes) {
    |name| == 14 && forall i :: 0 <= i < 14 ==> name[i] == NAME_LETTERS[i].0 || name[i] == NAME_LETTERS[i].1
  }

  lemma SpellsLengthIff(name: bytes)
    ensures SameIgnoringCase(name, Ascii("Content-Length")) <==> SpellsLength(name)
  {
    var text := Ascii("Content-Length");
    assert text == [67, 111, 110, 116, 101, 110, 116, 45, 76, 101, 110, 103, 116, 104];
    forall i | 0 <= i < 14 && |name| == 14
      ensures LowerByte(name[i]) == LowerByte(text[i])
              <==> name[i] == NAME_LETTERS[i].0 || name[i] == NAME_LETTERS[i].1
    {
    }
  }

  /** A header line names a length exactly when what stands before its first colon is, outer
      white space apart, Content-Length in any letter case; the length is then what the rest
      parses to. */
  lemma HeaderNameIff(name: bytes, value: bytes)
    requires COLON !in name
    ensures FieldOf(name + [COLON] + value)
            == if !SpellsLength(Trim(name)) then Other
               else
                 match ParseUnsigned(Trim(value), USIZE_MAX)
                 case Some(n) => Length(n)
                 case None => Unparsable
  {
    var line := name + [COLON] + value;
    var front := TrimStart(name);
    var t := front + [COLON] + TrimEnd(value);
    TrimmedAtColon(name, value);
    FirstColon(t, |front|);
    TrimOfTrimEnd(value);
    TrimOfTrimStart(name);
    SpellsLengthIff(Trim(name));
    hide Trim, TrimStart, TrimEnd, SpellsLength, SameIgnoringCase, ParseUnsigned, Ascii;
    assert t[..|front|] == front && t[|front| + 1..] == TrimEnd(value);
  }

  lemma TrimmedAtColon(name: bytes, value: bytes)
    requires COLON !in name
    ensures var front, t := TrimStart(name), TrimStart(name) + [COLON] + TrimEnd(value);
            && Trim(name + [COLON] + value) == t && t[|front|] == COLON
            && forall i :: 0 <= i < |front| ==> t[i] != COLON
  {
    var front := TrimStart(name);
    TrimStartAtColon(name, value);
    TrimEndAtColon(front, value);
    TrimStartFacts(name);
    hide TrimStart, TrimEnd;
    forall i | 0 <= i < |front|
      ensures front[i] != COLON
    {
      assert front[i] == name[|name| - |front| + i];
    }
  }

  lemma TrimOfTrimStart(s: bytes)
    ensures Trim(TrimStart(s)) == Trim(s)
  {
    TrimStartFacts(s);
  }

  /** A line without a colon names none. */
  lemma NoColonNoField(line: bytes)
    requires COLON !in line
    ensures FieldOf(line) == Other
  {
    TrimIsPart(line);
  }

  lemma TrimIsPart(line: bytes)
    ensures forall b :: b in Trim(line) ==> b in line
  {
    TrimStartFacts(line);
    TrimEndFacts(TrimStart(line));
    var from := |line| - |TrimStart(line)|;
    forall i | 0 <= i < |Trim(line)|
      ensures Trim(line)[i] == line[from + i]
    {
    }
  }

  // ---------- Through the reader ----------

  lemma LineFeedTrimmed(s: bytes)
    ensures Trim(s + [LF]) == Trim(s)
  {
    TrimOfTrimEnd(s + [LF]);
    TrimEndDropsAscii(s, LF);
    TrimOfTrimEnd(s);
  }

  lemma HeaderLineShape(name: bytes, value: bytes)
    requires COLON !in name && OneLine(name) && OneLine(value) && ValidUtf8(name) && ValidUtf8(value)
    requires SpellsLength(Trim(name))
    ensures var line := name + [COLON] + value + [LF];
            RawLine(line) && !Blank(line) && Trim(line)[0] != OPEN_BRACE
  {
    hide Trim, ValidUtf8, SpellsLength, OneLine;
    var line := name + [COLON] + value + [LF];
    OneLineHeader(name, value);
    HeaderIsValid(name, value);
    SpelledStart(Trim(name));
    TrimmedFirst(name, value + [LF]);
    assert line[..|line| - 1] == name + [COLON] + value;
    assert line == name + [COLON] + (value + [LF]);
  }

  lemma HeaderIsValid(name: bytes, value: bytes)
    requires ValidUtf8(name) && ValidUtf8(value)
    ensures ValidUtf8(name + [COLON] + value + [LF])
  {
    hide ValidUtf8;
    AsciiIsValid([LF]);
    AsciiIsValid([COLON]);
    ValidConcat(value, [LF]);
    ValidConcat([COLON], value + [LF]);
    ValidConcat(name, [COLON] + (value + [LF]));
    assert name + [COLON] + value + [LF] == name + ([COLON] + (value + [LF]));
  }

  lemma OneLineHeader(name: bytes, value: bytes)
    requires OneLine(name) && OneLine(value)
    ensures OneLine(name + [COLON] + value)
  {
  }

  lemma SpelledStart(name: bytes)
    requires SpellsLength(name)
    ensures name != [] && name[0] != OPEN_BRACE
  {
  }

  lemma TrimmedFirst(name: bytes, rest: bytes)
    requires Trim(name) != []
    ensures Trim(name + [COLON] + rest) != [] && Trim(name + [COLON] + rest)[0] == Trim(name)[0]
  {
    var front := TrimStart(name);
    TrimStartAtColon(name, rest);
    TrimEndAtColon(front, rest);
    TrimEndFacts(front);
  }

  /** A length header in any letter case, with any white space around name and number, in front
      of a blank line and a body of that length: the body is the message, and what follows is
      left. */
  lemma AnyCaseHeaderReads(name: bytes, value: bytes, body: bytes, rest: bytes)
    requires COLON !in name && OneLine(name) && OneLine(value) && ValidUtf8(name) && ValidUtf8(value)
    requires SpellsLength(Trim(name)) && ParseUnsigned(Trim(value), USIZE_MAX) == Some(|body|)
    ensures ReadMessage(name + [COLON] + value + [LF] + [CR, LF] + body + rest)
            == (Message(Lossy(body), ContentLength), rest)
  {
    hide Trim, FieldOf, ReadMessage, Lossy, ParseUnsigned, SpellsLength, ValidUtf8;
    var line := name + [COLON] + value + [LF];
    HeaderLineShape(name, value);
    assert line == name + [COLON] + (value + [LF]);
    HeaderNameIff(name, value + [LF]);
    LineFeedTrimmed(value);
    assert FieldOf(line) == Length(|body|);
    CrLfIsBlank();
    assert Text([line]) == line by { TextOfOne(line); }
    assert LastLength([line], 0);
    HeaderBlockMeaning([line], [CR, LF], body + rest, 0);
    assert line + [CR, LF] + (body + rest) == line + [CR, LF] + body + rest;
    assert (body + rest)[..|body|] == body && (body + rest)[|body|..] == rest;
  }

  lemma TextOfOne(line: bytes)
    ensures Text([line]) == line
  {
    assert Text([line][1..]) == [];
  }

  lemma CrLfIsBlank()
    ensures RawLine([CR, LF]) && Blank([CR, LF])
  {
    BlankLines();
    AsciiIsValid([CR, LF]);
    assert [CR, LF][..1] == [CR];
  }

  // ---------- On the wire ----------

  /** What is written, byte by byte: the fourteen letters, a colon and a space, the length in
      decimal, two line ends of two bytes and the text; or the text and a line feed. */
  lemma WireFormat(payload: bytes)
    ensures var header := [0x43, 0x6F, 0x6E, 0x74, 0x65, 0x6E, 0x74, 0x2D]
                          + [0x4C, 0x65, 0x6E, 0x67, 0x74, 0x68, 0x3A, 0x20];
            Frame(payload, ContentLength) == header + Decimal(|payload|) + [13, 10, 13, 10] + payload
    ensures Frame(payload, JsonLine) == payload + [10]
  {
    hide Decimal, LengthPrefix;
    PrefixInBytes();
  }

  lemma PrefixInBytes()
    ensures LengthPrefix()
            == [0x43, 0x6F, 0x6E, 0x74, 0x65, 0x6E, 0x74, 0x2D] + [0x4C, 0x65, 0x6E, 0x67, 0x74, 0x68, 0x3A, 0x20]
  {
  }

  /** A line is a message of its own exactly when it opens with a brace, after white space. */
  lemma BraceLineReads(line: bytes, rest: bytes)
    requires RawLine(line) && !Blank(line)
    ensures ReadMessage(line + rest) == (Message(Trim(line), JsonLine), rest) <==> Trim(line)[0] == 0x7B
  {
    hide Trim, ValidUtf8, Headers, Lossy;
    RawLineReads(line, rest);
  }

  /** A blank line before a message is skipped. */
  lemma BlankLineIsSkipped(line: bytes, rest: bytes)
    requires RawLine(line) && Blank(line)
    ensures ReadMessage(line + rest) == ReadMessage(rest)
  {
    hide Trim, ValidUtf8, Headers, Lossy;
    RawLineReads(line, rest);
  }

  /** A line that is no UTF-8 is an error, as a first line and within a header block. */
  lemma BadTextFails(lines: seq<bytes>, line: bytes, rest: bytes)
    requires line != [] && line[|line| - 1] == LF && OneLine(line[..|line| - 1]) && !ValidUtf8(line)
    requires HeaderLines(lines) && (lines != [] ==> Trim(lines[0])[0] != OPEN_BRACE)
    ensures ReadMessage(Text(lines) + line + rest) == (Failed(NotUtf8), rest)
  {
    hide Trim, ValidUtf8, FieldOf, Lossy;
    var bad := line + rest;
    BadLineReads(line, rest);
    if lines == [] {
      assert Text(lines) + line + rest == bad;
    } else {
      var after := Text(lines[1..]) + bad;
      assert Text(lines) + line + rest == lines[0] + after;
      hide ReadMessage, Headers;
      BlockStarts(lines[0], after);
      TrimmedSaysTheSame(lines[0]);
      BadHeaders(Trim(lines[0]), lines[1..], line, rest, None);
    }
  }

  lemma BadLineReads(line: bytes, rest: bytes)
    requires line != [] && line[|line| - 1] == LF && OneLine(line[..|line| - 1])
    ensures LineLen(line + rest) == |line| && (line + rest)[..|line|] == line && (line + rest)[|line|..] == rest
  {
    var body := line[..|line| - 1];
    assert line == body + [LF];
    LineEnds(body, rest);
  }

  lemma {:induction false} BadHeaders(first: bytes, lines: seq<bytes>, line: bytes, rest: bytes, length: Option<nat>)
    requires !Blank(first) && !FieldOf(first).Unparsable? && HeaderLines(lines)
    requires line != [] && line[|line| - 1] == LF && OneLine(line[..|line| - 1]) && !ValidUtf8(line)
    ensures Headers(first, Text(lines) + (line + rest), length) == (HeaderFailed(NotUtf8), rest)
    decreases |lines|
  {
    hide FieldOf, Blank, ValidUtf8, LineLen;
    var known := if FieldOf(first).Length? then Some(FieldOf(first).n) else length;
    BadLineReads(line, rest);
    if lines == [] {
      assert Text(lines) + (line + rest) == line + rest;
    } else {
      var next, more := lines[0], lines[1..];
      assert Text(lines) + (line + rest) == next + (Text(more) + (line + rest));
      RawLineReads(next, Text(more) + (line + rest));
      BadHeaders(next, more, line, rest, known);
    }
  }

  /** A length fits 64 bits. */
  lemma LengthsFitWord(n: nat)
    ensures FieldOf(LengthPrefix() + Decimal(n)) == if n < 0x1_0000_0000_0000_0000 then Length(n) else Unparsable
  {
    HeaderField(n);
  }
}
