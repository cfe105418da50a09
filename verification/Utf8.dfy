/** UTF-8 by its scalar values: what the byte-level tables of `Bytes` mean. */
module Utf8 {
  import opened Bytes

  /** The code points that are no surrogates. */
  predicate Scalar(c: int) {
    0 <= c < 0xD800 || 0xE000 <= c <= 0x10FFFF
  }

  /** The encoding of one scalar value. */
  function Encode(c: int): (s: bytes)
    requires Scalar(c)
  {
    if c < 0x80 then [c]
    else if c < 0x800 then [0xC0 + c / 64, 0x80 + c % 64]
    else if c < 0x1_0000 then [0xE0 + c / 64 / 64, 0x80 + c / 64 % 64, 0x80 + c % 64]
    else [0xF0 + c / 64 / 64 / 64, 0x80 + c / 64 / 64 % 64, 0x80 + c / 64 % 64, 0x80 + c % 64]
  }

  type Text = t: seq<int> | forall i :: 0 <= i < |t| ==> Scalar(t[i])

  function EncodeAll(t: Text): bytes {
    if t == [] then [] else Encode(t[0]) + EncodeAll(t[1..])
  }

  /** One more digit of six bits. */
  function Push(high: int, b: byte): int {
    high * 64 + (b as int - 0x80)
  }

  /** The scalar value a text starts with. */
  function Decode(s: bytes): int
    requires StartsWithChar(s)
  {
    var lead: int := s[0];
    match Width(s[0])
    case 1 => lead
    case 2 => Push(lead - 0xC0, s[1])
    case 3 => Push(Push(lead - 0xE0, s[1]), s[2])
    case _ => Push(Push(Push(lead - 0xF0, s[1]), s[2]), s[3])
  }

  lemma Pushed(high: int, b: byte)
    requires Cont(b)
    ensures Push(high, b) / 64 == high && 0x80 + Push(high, b) % 64 == b
  {
  }

  lemma Split(c: int)
    requires c >= 0
    ensures Push(c / 64, 0x80 + c % 64) == c
  {
  }

  lemma DecodeEncodes(s: bytes)
    requires StartsWithChar(s)
    ensures Scalar(Decode(s)) && Encode(Decode(s)) == s[..Width(s[0])]
  {
    var lead: int := s[0];
    match Width(s[0])
    case 1 =>
    case 2 => Pushed(lead - 0xC0, s[1]);
    case 3 =>
      Pushed(lead - 0xE0, s[1]);
      Pushed(Push(lead - 0xE0, s[1]), s[2]);
    case _ => FourBytes(s);
  }

  lemma FourBytes(s: bytes)
    requires StartsWithChar(s) && Width(s[0]) == 4
    ensures Scalar(Decode(s)) && Encode(Decode(s)) == s[..4]
  {
    var lead: int := s[0];
    var a := Push(lead - 0xF0, s[1]);
    var b := Push(a, s[2]);
    Pushed(lead - 0xF0, s[1]);
    Pushed(a, s[2]);
    Pushed(b, s[3]);
  }

  lemma EncodeDecodes(c: int, rest: bytes)
    requires Scalar(c)
    ensures var s := Encode(c) + rest;
            Encode(c) != [] && StartsWithChar(s) && Width(s[0]) == |Encode(c)| && Decode(s) == c
  {
    Split(c);
    Split(c / 64);
    Split(c / 64 / 64);
    hide Push;
  }

  /** A text starts with a character exactly when it starts with the encoding of a scalar. */
  lemma StartsWithCharIff(s: bytes)
    ensures StartsWithChar(s) <==> exists c :: Scalar(c) && Encode(c) <= s
  {
    if StartsWithChar(s) {
      DecodeEncodes(s);
      assert Encode(Decode(s)) <= s;
    }
    if c :| Scalar(c) && Encode(c) <= s {
      EncodeDecodes(c, s[|Encode(c)|..]);
      assert s == Encode(c) + s[|Encode(c)|..];
    }
  }

  lemma {:induction false} EncodedIsValid(t: Text)
    ensures ValidUtf8(EncodeAll(t))
    decreases |t|
  {
    hide Encode, StartsWithChar;
    if t != [] {
      var rest := EncodeAll(t[1..]);
      EncodedIsValid(t[1..]);
      EncodeDecodes(t[0], rest);
      assert (Encode(t[0]) + rest)[|Encode(t[0])|..] == rest;
    }
  }

  lemma {:induction false} ValidIsEncoded(s: bytes) returns (t: Text)
    requires ValidUtf8(s)
    ensures EncodeAll(t) == s
    decreases |s|
  {
    hide Encode, Decode;
    t := [];
    if s != [] {
      DecodeEncodes(s);
      var w := Width(s[0]);
      var more := ValidIsEncoded(s[w..]);
      t := [Decode(s)] + more;
      assert t[1..] == more && s == s[..w] + s[w..];
    }
  }

  /** Well-formed text is exactly the encoding of scalar values, and of one text only. */
  lemma ValidIffEncoded(s: bytes)
    ensures ValidUtf8(s) <==> exists t: Text :: EncodeAll(t) == s
  {
    if ValidUtf8(s) {
      var t := ValidIsEncoded(s);
    }
    if t: Text :| EncodeAll(t) == s {
      EncodedIsValid(t);
    }
  }

  lemma {:induction false} EncodingIsUnique(t: Text, u: Text)
    requires EncodeAll(t) == EncodeAll(u)
    ensures t == u
    decreases |t| + |u|
  {
    hide Encode, Decode, StartsWithChar;
    if t != [] && u != [] {
      var a, b := EncodeAll(t[1..]), EncodeAll(u[1..]);
      EncodeDecodes(t[0], a);
      EncodeDecodes(u[0], b);
      assert a == (Encode(t[0]) + a)[|Encode(t[0])|..] == b;
      EncodingIsUnique(t[1..], u[1..]);
    } else {
      if t != [] {
        EncodeDecodes(t[0], EncodeAll(t[1..]));
      }
      if u != [] {
        EncodeDecodes(u[0], EncodeAll(u[1..]));
      }
    }
  }

  // ---------- What one replacement character stands for ----------

  /** Some character begins with these bytes and goes on. */
  ghost predicate Unfinished(s: bytes) {
    exists c :: Scalar(c) && s < Encode(c)
  }

  /** Ill-formed bytes are replaced as Unicode recommends: one replacement for the longest
      beginning of a character that can be found there, or for a single byte. */
  lemma BadLenIsMaximal(s: bytes)
    requires s != [] && !StartsWithChar(s)
    ensures BadLen(s) == 1 || Unfinished(s[..BadLen(s)])
    ensures forall k :: BadLen(s) < k <= |s| ==> !Unfinished(s[..k])
  {
    if BadLen(s) > 1 {
      var c := Completed(s[..BadLen(s)]);
    }
    forall k | BadLen(s) < k <= |s|
      ensures !Unfinished(s[..k])
    {
      if Unfinished(s[..k]) {
        UnfinishedShape(s[..k]);
        assert false;
      }
    }
  }

  /** A lead byte and a fitting second one, or two bytes of four more, can be completed. */
  lemma Completed(s: bytes) returns (c: int)
    requires 2 <= |s| <= 3 && |s| < Width(s[0]) && SecondOk(s[0], s[1]) && (|s| == 3 ==> Cont(s[2]))
    ensures Scalar(c) && s < Encode(c)
  {
    var whole := s + (if |s| + 1 == Width(s[0]) then [0x80] else [0x80, 0x80]);
    DecodeEncodes(whole);
    c := Decode(whole);
    assert whole[..|whole|] == whole;
  }

  lemma UnfinishedShape(s: bytes)
    requires s != [] && Unfinished(s)
    ensures |s| < Width(s[0])
    ensures |s| >= 2 ==> SecondOk(s[0], s[1]) && |s| <= 3 && (|s| == 3 ==> Cont(s[2]))
  {
    hide Encode;
    var c :| Scalar(c) && s < Encode(c);
    EncodeDecodes(c, []);
    assert Encode(c) + [] == Encode(c);
    PrefixOfChar(s, Encode(c));
  }

  lemma PrefixOfChar(s: bytes, whole: bytes)
    requires s != [] && s < whole && StartsWithChar(whole) && |whole| == Width(whole[0])
    ensures s[0] == whole[0] && |s| < Width(s[0])
    ensures |s| >= 2 ==> SecondOk(s[0], s[1]) && |s| <= 3 && (|s| == 3 ==> Cont(s[2]))
  {
    assert |s| >= 2 ==> s[1] == whole[1];
    assert |s| >= 3 ==> s[2] == whole[2];
  }

  // ---------- White space ----------

  /** The code points with the property White_Space. */
  predicate WhiteSpace(c: int) {
    || 9 <= c <= 13 || c == 32 || c == 0x85 || c == 0xA0 || c == 0x1680 || 0x2000 <= c <= 0x200A
    || c == 0x2028 || c == 0x2029 || c == 0x202F || c == 0x205F || c == 0x3000
  }

  /** Trimming takes off a character in front exactly when it is white space. */
  lemma LeadingSpaceIff(c: int, rest: bytes)
    requires Scalar(c)
    ensures LeadingSpace(Encode(c) + rest) == if WhiteSpace(c) then |Encode(c)| else 0
  {
  }

  /** ... and one at the end likewise. */
  lemma TrailingSpaceIff(c: int, front: bytes)
    requires Scalar(c)
    ensures TrailingSpace(front + Encode(c)) == if WhiteSpace(c) then |Encode(c)| else 0
  {
  }

  // ---------- Lossy decoding ----------

  /** Well-formed text in front is kept as it is; the ill-formed bytes after it become one U+FFFD,
      and decoding goes on behind them. */
  lemma {:induction false} LossyReplaces(a: bytes, s: bytes)
    requires ValidUtf8(a) && s != [] && !StartsWithChar(s)
    ensures Lossy(a + s) == a + Encode(0xFFFD) + Lossy(s[BadLen(s)..])
    decreases |a|
  {
    ReplacementPoint();
    hide StartsWithChar, Width, BadLen, Encode, ValidUtf8, Lossy;
    if a == [] {
      assert a + s == s;
      LossyBad(s);
    } else {
      var w := FirstChar(a, s);
      LossyFirst(a + s);
      assert (a + s)[w..] == a[w..] + s && (a + s)[..w] == a[..w];
      LossyReplaces(a[w..], s);
      assert a == a[..w] + a[w..];
    }
  }

  lemma ReplacementPoint()
    ensures Encode(0xFFFD) == REPLACEMENT
  {
  }

  lemma LossyFirst(s: bytes)
    requires s != [] && StartsWithChar(s)
    ensures Lossy(s) == s[..Width(s[0])] + Lossy(s[Width(s[0])..])
  {
  }

  lemma LossyBad(s: bytes)
    requires s != [] && !StartsWithChar(s)
    ensures Lossy(s) == REPLACEMENT + Lossy(s[BadLen(s)..])
  {
  }

  lemma FirstChar(a: bytes, s: bytes) returns (w: nat)
    requires ValidUtf8(a) && a != []
    ensures w == Width(a[0]) && 0 < w <= |a| && ValidUtf8(a[w..])
    ensures StartsWithChar(a + s) && (a + s)[0] == a[0]
  {
    w := Width(a[0]);
    var u := a + s;
    assert forall i :: 0 <= i < |a| ==> u[i] == a[i];
  }
}
