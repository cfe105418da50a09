/** Text as the bytes of a UTF-8 string: ASCII literals, trimming, decimal numbers and the
    lossy decoding of arbitrary bytes. */
module Bytes {
  import opened Options

  type byte = b: int | 0 <= b < 256
  type bytes = seq<byte>

  /** The bytes of an ASCII literal. */
  function Ascii(s: string): (b: bytes)
    ensures |b| == |s| && forall i :: 0 <= i < |s| && (s[i] as int) < 128 ==> b[i] == s[i] as int
  {
    seq(|s|, i requires 0 <= i < |s| => (s[i] as int) % 256)
  }

  // ---------- UTF-8 ----------

  predicate Cont(b: byte) {
    0x80 <= b < 0xC0
  }

  /** The second bytes that may follow a lead byte of a three- or four-byte character. */
  predicate SecondOk(lead: byte, b: byte) {
    Cont(b) && (lead == 0xE0 ==> b >= 0xA0) && (lead == 0xED ==> b < 0xA0)
            && (lead == 0xF0 ==> b >= 0x90) && (lead == 0xF4 ==> b < 0x90)
  }

  /** How many bytes a character starting with `lead` takes; 0 if none starts so. */
  function Width(lead: byte): nat {
    if lead < 0x80 then 1
    else if 0xC2 <= lead < 0xE0 then 2
    else if 0xE0 <= lead < 0xF0 then 3
    else if 0xF0 <= lead < 0xF5 then 4
    else 0
  }

  predicate StartsWithChar(s: bytes) {
    && |s| > 0 && 0 < Width(s[0]) <= |s|
    && (Width(s[0]) == 2 ==> Cont(s[1]))
    && (Width(s[0]) >= 3 ==> SecondOk(s[0], s[1]) && Cont(s[2]))
    && (Width(s[0]) == 4 ==> Cont(s[3]))
  }

  predicate ValidUtf8(s: bytes)
    decreases |s|
  {
    s == [] || (StartsWithChar(s) && ValidUtf8(s[Width(s[0])..]))
  }

  const REPLACEMENT: bytes := [0xEF, 0xBF, 0xBD]

  /** The ill-formed bytes that one replacement character stands for. */
  function BadLen(s: bytes): (n: nat)
    requires s != [] && !StartsWithChar(s)
    ensures 0 < n <= |s|
  {
    var w := Width(s[0]);
    if w < 3 || |s| < 2 || !SecondOk(s[0], s[1]) then 1
    else if w == 3 || |s| < 3 || !Cont(s[2]) then 2
    else 3
  }

  /** `String::from_utf8_lossy` */
  function Lossy(s: bytes): bytes
    decreases |s|
  {
    if s == [] then []
    else if StartsWithChar(s) then s[..Width(s[0])] + Lossy(s[Width(s[0])..])
    else REPLACEMENT + Lossy(s[BadLen(s)..])
  }

  lemma CharThenValid(c: bytes, rest: bytes)
    requires StartsWithChar(c) && |c| == Width(c[0]) && ValidUtf8(rest)
    ensures ValidUtf8(c + rest)
  {
    assert (c + rest)[Width(c[0])..] == rest;
  }

  lemma {:induction false} LossyIsValid(s: bytes)
    ensures ValidUtf8(Lossy(s))
    decreases |s|
  {
    if s != [] {
      if StartsWithChar(s) {
        LossyIsValid(s[Width(s[0])..]);
        CharThenValid(s[..Width(s[0])], Lossy(s[Width(s[0])..]));
      } else {
        LossyIsValid(s[BadLen(s)..]);
        CharThenValid(REPLACEMENT, Lossy(s[BadLen(s)..]));
      }
    }
  }

  /** Decoding loses nothing exactly on well-formed text. */
  lemma {:induction false} LossyIsIdentity(s: bytes)
    ensures Lossy(s) == s <==> ValidUtf8(s)
    decreases |s|
  {
    LossyIsValid(s);
    if ValidUtf8(s) && s != [] {
      LossyIsIdentity(s[Width(s[0])..]);
      assert s == s[..Width(s[0])] + s[Width(s[0])..];
    }
  }

  lemma {:induction false} ValidConcat(a: bytes, b: bytes)
    requires ValidUtf8(a)
    ensures ValidUtf8(b) <==> ValidUtf8(a + b)
    decreases |a|
  {
    if a == [] {
      assert a + b == b;
    } else {
      var w := Width(a[0]);
      assert (a + b)[w..] == a[w..] + b;
      ValidConcat(a[w..], b);
    }
  }

  lemma {:induction false} AsciiIsValid(s: bytes)
    requires forall i :: 0 <= i < |s| ==> s[i] < 128
    ensures ValidUtf8(s)
    decreases |s|
  {
    if s != [] {
      AsciiIsValid(s[1..]);
    }
  }

  // ---------- Trimming ----------

  predicate AsciiSpace(b: byte) {
    9 <= b <= 13 || b == 32
  }

  /** U+0085 and U+00A0. */
  predicate Space2(a: byte, b: byte) {
    a == 0xC2 && (b == 0x85 || b == 0xA0)
  }

  /** U+1680, U+2000 to U+200A, U+2028, U+2029, U+202F, U+205F and U+3000. */
  predicate Space3(a: byte, b: byte, c: byte) {
    || (a == 0xE1 && b == 0x9A && c == 0x80)
    || (a == 0xE2 && b == 0x80 && ((0x80 <= c <= 0x8A) || c == 0xA8 || c == 0xA9 || c == 0xAF))
    || (a == 0xE2 && b == 0x81 && c == 0x9F)
    || (a == 0xE3 && b == 0x80 && c == 0x80)
  }

  /** Length of the white-space character `s` starts with, 0 if there is none. */
  function LeadingSpace(s: bytes): (n: nat)
    ensures n <= |s|
  {
    if |s| >= 1 && AsciiSpace(s[0]) then 1
    else if |s| >= 2 && Space2(s[0], s[1]) then 2
    else if |s| >= 3 && Space3(s[0], s[1], s[2]) then 3
    else 0
  }

  function TrailingSpace(s: bytes): (n: nat)
    ensures n <= |s|
  {
    var k := |s|;
    if k >= 1 && AsciiSpace(s[k - 1]) then 1
    else if k >= 2 && Space2(s[k - 2], s[k - 1]) then 2
    else if k >= 3 && Space3(s[k - 3], s[k - 2], s[k - 1]) then 3
    else 0
  }

  function TrimStart(s: bytes): bytes
    decreases |s|
  {
    if LeadingSpace(s) == 0 then s else TrimStart(s[LeadingSpace(s)..])
  }

  function TrimEnd(s: bytes): bytes
    decreases |s|
  {
    if TrailingSpace(s) == 0 then s else TrimEnd(s[..|s| - TrailingSpace(s)])
  }

  /** `str::trim` */
  function Trim(s: bytes): bytes {
    TrimEnd(TrimStart(s))
  }

  lemma {:induction false} TrimEndFacts(s: bytes)
    ensures TrimEnd(s) <= s && TrailingSpace(TrimEnd(s)) == 0
    decreases |s|
  {
    if TrailingSpace(s) != 0 {
      TrimEndFacts(s[..|s| - TrailingSpace(s)]);
    }
  }

  lemma {:induction false} TrimStartFacts(s: bytes)
    ensures LeadingSpace(TrimStart(s)) == 0
    ensures |TrimStart(s)| <= |s| && TrimStart(s) == s[|s| - |TrimStart(s)|..]
    decreases |s|
  {
    if LeadingSpace(s) != 0 {
      TrimStartFacts(s[LeadingSpace(s)..]);
    }
  }

  lemma TrimIsIdempotent(s: bytes)
    ensures Trim(Trim(s)) == Trim(s)
    ensures LeadingSpace(Trim(s)) == 0 && TrailingSpace(Trim(s)) == 0
  {
    TrimStartFacts(s);
    TrimEndFacts(TrimStart(s));
  }

  /** Text without outer white space is exactly what trimming leaves alone. */
  lemma TrimmedIff(s: bytes)
    ensures Trim(s) == s <==> LeadingSpace(s) == 0 && TrailingSpace(s) == 0
  {
    TrimIsIdempotent(s);
  }

  lemma TrimEndDropsAscii(s: bytes, b: byte)
    requires AsciiSpace(b)
    ensures TrimEnd(s + [b]) == TrimEnd(s)
  {
    assert (s + [b])[..|s|] == s;
  }

  // ---------- Decimal numbers ----------

  predicate IsDigit(b: byte) {
    0x30 <= b <= 0x39
  }

  predicate AllDigits(s: bytes) {
    forall i :: 0 <= i < |s| ==> IsDigit(s[i])
  }

  /** The number a digit string denotes. */
  function Value(s: bytes): nat
    requires AllDigits(s)
    decreases |s|
  {
    if s == [] then 0 else 10 * Value(s[..|s| - 1]) + (s[|s| - 1] - 0x30)
  }

  /** `format!("{}", n)` */
  function Decimal(n: nat): (s: bytes)
    ensures s != [] && AllDigits(s) && Value(s) == n
    decreases n
  {
    if n < 10 then [0x30 + n]
    else
      var s := Decimal(n / 10) + [0x30 + n % 10];
      assert s[..|s| - 1] == Decimal(n / 10);
      s
  }

  /** `str::parse` for an unsigned type whose largest value is `max`: an optional plus
      sign and at least one digit, leading zeros allowed. */
  function ParseUnsigned(s: bytes, max: nat): Option<nat> {
    var digits := if |s| > 0 && s[0] == 0x2B then s[1..] else s;
    if digits != [] && AllDigits(digits) && Value(digits) <= max then Some(Value(digits)) else None
  }

  /** Parsing undoes printing, up to the range of the type. */
  lemma ParseDecimal(n: nat, max: nat)
    ensures ParseUnsigned(Decimal(n), max) == if n <= max then Some(n) else None
  {
    assert IsDigit(Decimal(n)[0]);
  }

  function PowerOfTen(k: nat): nat {
    if k == 0 then 1 else 10 * PowerOfTen(k - 1)
  }

  /** Printing uses the ten digits, and as many of them as the number is long in base ten. */
  lemma {:induction false} DecimalWidth(n: nat, k: nat)
    requires k >= 1
    ensures |Decimal(n)| <= k <==> n < PowerOfTen(k)
    ensures n < 10 ==> Decimal(n) == [Ascii("0123456789")[n]]
    decreases n
  {
    if n >= 10 {
      if k > 1 {
        DecimalWidth(n / 10, k - 1);
      }
    } else {
      PowersGrow(k);
    }
  }

  lemma {:induction false} PowersGrow(k: nat)
    requires k >= 1
    ensures PowerOfTen(k) >= 10
  {
    if k > 1 {
      PowersGrow(k - 1);
    }
  }

  // ---------- Searching ----------

  /** Position of the first `b`, or the length when there is none. */
  function IndexOf(s: bytes, b: byte): (k: nat)
    ensures k <= |s| && (forall i :: 0 <= i < k ==> s[i] != b) && (k < |s| ==> s[k] == b)
    decreases |s|
  {
    if s == [] || s[0] == b then 0 else 1 + IndexOf(s[1..], b)
  }

  // ---------- Lines ----------

  const LF: byte := 10
  const CR: byte := 13

  predicate OneLine(s: bytes) {
    forall i :: 0 <= i < |s| ==> s[i] != LF
  }

  predicate Blank(line: bytes) {
    Trim(line) == []
  }

  function StripCr(line: bytes): bytes {
    if line != [] && line[|line| - 1] == CR then line[..|line| - 1] else line
  }

  /** `str::lines`: a line loses its line feed and one carriage return before it; an
      unterminated last line keeps everything. */
  function Lines(s: bytes): seq<bytes>
    decreases |s|
  {
    if s == [] then []
    else
      var k := IndexOf(s, LF);
      if k == |s| then [s] else [StripCr(s[..k])] + Lines(s[k + 1..])
  }

  lemma FirstLf(s: bytes, t: bytes)
    requires OneLine(s)
    ensures IndexOf(s, LF) == |s| && IndexOf(s + [LF] + t, LF) == |s|
  {
    var u := s + [LF] + t;
    assert u[|s|] == LF && forall i :: 0 <= i < |s| ==> u[i] == s[i];
  }

  lemma LinesAhead(head: bytes, rest: bytes)
    requires OneLine(head)
    ensures Lines(head + [LF] + rest) == [StripCr(head)] + Lines(rest)
  {
    var u := head + [LF] + rest;
    FirstLf(head, rest);
    assert u[..|head|] == head && u[|head| + 1..] == rest;
  }
}
