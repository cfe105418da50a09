/** MCP messages over standard input and output: one JSON text per line, or a header block
    with a Content-Length followed by that many bytes. */
module StdioFraming {
  import opened Options
  import opened Bytes

  /** Largest `usize` on a 64-bit host. */
  const USIZE_MAX := 0xFFFF_FFFF_FFFF_FFFF

  const COLON: byte := 0x3A
  const OPEN_BRACE: byte := 0x7B

  datatype Format = ContentLength | JsonLine

  datatype ReadError = NotUtf8 | EofInHeaders | BadLength | MissingLength | EofInBody

  datatype ReadResult =
    | EndOfInput
    | Message(text: bytes, format: Format)
    | Failed(error: ReadError)

  // ---------- What is written ----------

  function Crlf2(): bytes {
    [CR, LF, CR, LF]
  }

  /** The header up to the number. */
  function LengthPrefix(): bytes {
    Ascii("Content-Length: ")
  }

  function Frame(payload: bytes, format: Format): bytes {
    match format
    case ContentLength => LengthPrefix() + Decimal(|payload|) + Crlf2() + payload
    case JsonLine => payload + [LF]
  }

  // ---------- What is read ----------

  /** Bytes up to and including the first line feed, or everything. */
  function LineLen(s: bytes): (n: nat)
    ensures n <= |s| && (s != [] ==> n > 0)
  {
    var k := IndexOf(s, LF);
    if k < |s| then k + 1 else k
  }

  function LowerByte(b: byte): byte {
    if 0x41 <= b <= 0x5A then b + 0x20 else b
  }

  /** ASCII case is ignored. */
  predicate SameIgnoringCase(a: bytes, b: bytes) {
    |a| == |b| && forall i :: 0 <= i < |a| ==> LowerByte(a[i]) == LowerByte(b[i])
  }

  /** What a header line says about the length of the body. */
  datatype LengthField = Other | Unparsable | Length(n: nat)

  function FieldOf(line: bytes): LengthField {
    var t := Trim(line);
    var k := IndexOf(t, COLON);
    if k < |t| && SameIgnoringCase(Trim(t[..k]), Ascii("Content-Length")) then
      match ParseUnsigned(Trim(t[k + 1..]), USIZE_MAX)
      case Some(n) => Length(n)
      case None => Unparsable
    else Other
  }

  lemma TrimmedSaysTheSame(line: bytes)
    ensures FieldOf(Trim(line)) == FieldOf(line) && (Blank(Trim(line)) <==> Blank(line))
  {
    TrimIsIdempotent(line);
  }

  datatype HeaderResult = Body(length: nat) | HeaderFailed(error: ReadError)

  /** Result of a header block whose next line is `line`, and the bytes left after it. */
  function Headers(line: bytes, rest: bytes, length: Option<nat>): (r: (HeaderResult, bytes))
    ensures |r.1| <= |rest|
    decreases |rest|
  {
    if Blank(line) then
      (if length.Some? then Body(length.value) else HeaderFailed(MissingLength), rest)
    else
      var field := FieldOf(line);
      if field.Unparsable? then (HeaderFailed(BadLength), rest)
      else if rest == [] then (HeaderFailed(EofInHeaders), rest)
      else
        var n := LineLen(rest);
        if !ValidUtf8(rest[..n]) then (HeaderFailed(NotUtf8), rest[n..])
        else Headers(rest[..n], rest[n..], if field.Length? then Some(field.n) else length)
  }

  /** The next message of the stream `s`, and what is left of the stream. */
  function ReadMessage(s: bytes): (r: (ReadResult, bytes))
    ensures r.0.Message? ==> |r.1| < |s|
    decreases |s|
  {
    if s == [] then (EndOfInput, [])
    else
      var line, rest := s[..LineLen(s)], s[LineLen(s)..];
      var first := Trim(line);
      if !ValidUtf8(line) then (Failed(NotUtf8), rest)
      else if first == [] then ReadMessage(rest)
      else if first[0] == OPEN_BRACE then (Message(first, JsonLine), rest)
      else
        var (header, body) := Headers(first, rest, None);
        match header
        case HeaderFailed(e) => (Failed(e), body)
        case Body(n) =>
          if |body| < n then (Failed(EofInBody), [])
          else (Message(Lossy(body[..n]), ContentLength), body[n..])
  }

  // ---------- The reader and the writer ----------

  /** Buffered standard input: the bytes not consumed yet, up to end of file. */
  class Reader {
    var rest: bytes

    constructor (input: bytes)
      ensures rest == input
    {
      rest := input;
    }

    /** Consumes one line; text that is not UTF-8 is an error. Nothing is read at the end. */
    method ReadLine() returns (line: bytes, ok: bool)
      modifies this
      ensures line == old(rest)[..LineLen(old(rest))] && rest == old(rest)[LineLen(old(rest))..]
      ensures ok == ValidUtf8(line)
    {
      var n := LineLen(rest);
      line, rest := rest[..n], rest[n..];
      ok := ValidUtf8(line);
    }

    method ReadExact(n: nat) returns (body: Option<bytes>)
      modifies this
      ensures n <= |old(rest)| ==> body == Some(old(rest)[..n]) && rest == old(rest)[n..]
      ensures n > |old(rest)| ==> body == None && rest == []
    {
      if n <= |rest| {
        body, rest := Some(rest[..n]), rest[n..];
      } else {
        body, rest := None, [];
      }
    }

    method ReadContentLength(firstLine: bytes) returns (result: HeaderResult)
      modifies this
      ensures (result, rest) == Headers(firstLine, old(rest), None)
    {
      hide Trim, FieldOf, LineLen, ValidUtf8;
      var contentLength: Option<nat> := None;
      var pendingFirst := Some(firstLine);
      while true
        invariant pendingFirst.Some? ==>
                  Headers(pendingFirst.value, rest, contentLength) == Headers(firstLine, old(rest), None)
        invariant pendingFirst.None? ==>
                    (if rest == [] then (HeaderFailed(EofInHeaders), rest)
                     else if !ValidUtf8(rest[..LineLen(rest)]) then (HeaderFailed(NotUtf8), rest[LineLen(rest)..])
                     else Headers(rest[..LineLen(rest)], rest[LineLen(rest)..], contentLength))
                    == Headers(firstLine, old(rest), None)
        decreases |rest|, pendingFirst.Some?
      {
        var line: bytes;
        if pendingFirst.Some? {
          line := pendingFirst.value;
          pendingFirst := None;
        } else {
          if rest == [] {
            return HeaderFailed(EofInHeaders);
          }
          var ok;
          line, ok := ReadLine();
          if !ok {
            return HeaderFailed(NotUtf8);
          }
        }
        var trimmed := Trim(line);
        if trimmed == [] {
          break;
        }
        var field := FieldOf(trimmed);
        TrimmedSaysTheSame(line);
        if field.Unparsable? {
          return HeaderFailed(BadLength);
        }
        if field.Length? {
          contentLength := Some(field.n);
        }
      }
      result := if contentLength.Some? then Body(contentLength.value) else HeaderFailed(MissingLength);
    }

    /** Reads one message: blank lines are skipped, a line opening a brace is a message,
        anything else starts a header block. */
    method ReadNextMessage() returns (result: ReadResult)
      modifies this
      ensures (result, rest) == ReadMessage(old(rest))
    {
      var first: bytes := [];
      while first == []
        invariant first == [] ==> ReadMessage(rest) == ReadMessage(old(rest))
        invariant first != [] ==>
                    ReadMessage(old(rest)) ==
                    if first[0] == OPEN_BRACE then (Message(first, JsonLine), rest)
                    else
                      var (header, body) := Headers(first, rest, None);
                      match header
                      case HeaderFailed(e) => (Failed(e), body)
                      case Body(n) =>
                        if |body| < n then (Failed(EofInBody), [])
                        else (Message(Lossy(body[..n]), ContentLength), body[n..])
        decreases |rest|, first == []
      {
        if rest == [] {
          return EndOfInput;
        }
        var line, ok := ReadLine();
        if !ok {
          return Failed(NotUtf8);
        }
        first := Trim(line);
      }
      if first[0] == OPEN_BRACE {
        return Message(first, JsonLine);
      }
      var header := ReadContentLength(first);
      if header.HeaderFailed? {
        return Failed(header.error);
      }
      var body := ReadExact(header.length);
      if body.None? {
        return Failed(EofInBody);
      }
      return Message(Lossy(body.value), ContentLength);
    }
  }

  /** Standard output: the bytes written so far. */
  class Writer {
    var written: bytes

    constructor ()
      ensures written == []
    {
      written := [];
    }

    method WriteMessage(payload: bytes, format: Format)
      modifies this
      ensures written == old(written) + Frame(payload, format)
    {
      match format {
        case ContentLength =>
          var framed := LengthPrefix() + Decimal(|payload|) + Crlf2() + payload;
          written := written + framed;
        case JsonLine =>
          written := written + payload;
          written := written + [LF];
          assert old(written) + payload + [LF] == old(written) + (payload + [LF]);
      }
    }
  }
}
