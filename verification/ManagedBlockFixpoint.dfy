/** Rewriting the configuration twice is rewriting it once, and never touches what the user
    wrote outside the marked regions. */
module ManagedBlockFixpoint {
  import opened Options
  import opened Bytes
  import opened ManagedBlock

  // ---------- Splitting and joining ----------

  /** `s` split at every line feed; the empty text is one empty piece. */
  function Pieces(s: bytes): (p: seq<bytes>)
    ensures p != []
    decreases |s|
  {
    var k := IndexOf(s, LF);
    if k == |s| then [s] else [s[..k]] + Pieces(s[k + 1..])
  }

  function StripAll(lines: seq<bytes>): (r: seq<bytes>)
    ensures |r| == |lines| && forall i :: 0 <= i < |r| ==> r[i] == StripCr(lines[i])
  {
    seq(|lines|, i requires 0 <= i < |lines| => StripCr(lines[i]))
  }

  ghost predicate AllOneLine(lines: seq<bytes>) {
    forall i :: 0 <= i < |lines| ==> OneLine(lines[i])
  }

  lemma NoLf(s: bytes)
    requires OneLine(s)
    ensures Pieces(s) == [s]
  {
    FirstLf(s, []);
  }

  /** A text with a line feed, cut at the first one. */
  lemma CutAtLf(s: bytes) returns (head: bytes, tail: bytes)
    requires !OneLine(s)
    ensures s == head + [LF] + tail && OneLine(head) && |tail| < |s|
  {
    var k := IndexOf(s, LF);
    head, tail := s[..k], s[k + 1..];
  }

  lemma FirstLine(head: bytes, rest: bytes)
    requires OneLine(head)
    ensures Lines(head + [LF] + rest) == [StripCr(head)] + Lines(rest)
    ensures Pieces(head + [LF] + rest) == [head] + Pieces(rest)
  {
    var u := head + [LF] + rest;
    LinesAhead(head, rest);
    FirstLf(head, rest);
    assert u[..|head|] == head && u[|head| + 1..] == rest;
  }

  lemma {:induction false} PiecesJoin(lines: seq<bytes>)
    requires lines != [] && AllOneLine(lines)
    ensures Pieces(Join(lines)) == lines
    decreases |lines|
  {
    hide Pieces, Lines;
    if |lines| == 1 {
      NoLf(lines[0]);
    } else {
      FirstLine(lines[0], Join(lines[1..]));
      PiecesJoin(lines[1..]);
    }
  }

  lemma {:induction false} JoinPieces(s: bytes)
    ensures Join(Pieces(s)) == s && AllOneLine(Pieces(s))
    decreases |s|
  {
    hide Pieces, Lines;
    if OneLine(s) {
      NoLf(s);
    } else {
      var head, tail := CutAtLf(s);
      FirstLine(head, tail);
      JoinPieces(tail);
      assert ([head] + Pieces(tail))[1..] == Pieces(tail);
    }
  }

  lemma StripAllCons(head: bytes, more: seq<bytes>)
    ensures StripAll([head] + more) == [StripCr(head)] + StripAll(more)
  {
  }

  /** A terminated text gives its pieces, each without a trailing carriage return. */
  lemma {:induction false} LinesOfTerminated(s: bytes, t: bytes)
    ensures Lines(s + [LF] + t) == StripAll(Pieces(s)) + Lines(t)
    decreases |s|
  {
    hide Lines, StripCr, Pieces, StripAll;
    if OneLine(s) {
      NoLf(s);
      FirstLine(s, t);
      OneStripped(s);
    } else {
      var head, tail := CutAtLf(s);
      FirstLine(head, tail);
      StripAllCons(head, Pieces(tail));
      assert s + [LF] + t == head + [LF] + (tail + [LF] + t);
      FirstLine(head, tail + [LF] + t);
      LinesOfTerminated(tail, t);
    }
  }

  lemma OneStripped(s: bytes)
    ensures StripAll([s]) == [StripCr(s)]
  {
  }

  lemma {:induction false} JoinSnoc(lines: seq<bytes>, last: bytes)
    requires lines != []
    ensures Join(lines + [last]) == Join(lines) + [LF] + last
    decreases |lines|
  {
    if |lines| == 1 {
      assert (lines + [last])[1..] == [last];
    } else {
      assert (lines + [last])[1..] == lines[1..] + [last];
      JoinSnoc(lines[1..], last);
      assert lines[0] + [LF] + (Join(lines[1..]) + [LF] + last) == (lines[0] + [LF] + Join(lines[1..])) + [LF] + last;
    }
  }

  lemma {:induction false} UnlinesIsJoin(lines: seq<bytes>)
    requires lines != []
    ensures Unlines(lines) == Join(lines) + [LF]
    decreases |lines|
  {
    var front, last := lines[..|lines| - 1], lines[|lines| - 1];
    if front == [] {
      assert Unlines(front) == [];
    } else {
      UnlinesIsJoin(front);
      JoinSnoc(front, last);
      assert lines == front + [last];
    }
  }

  lemma LinesOfUnlines(lines: seq<bytes>)
    requires lines != [] && AllOneLine(lines)
    ensures Lines(Unlines(lines)) == StripAll(lines)
  {
    UnlinesIsJoin(lines);
    PiecesJoin(lines);
    LinesOfTerminated(Join(lines), []);
    assert Join(lines) + [LF] + [] == Join(lines) + [LF];
  }

  lemma {:induction false} LinesAreOneLine(s: bytes)
    ensures AllOneLine(Lines(s))
    decreases |s|
  {
    if s != [] && IndexOf(s, LF) < |s| {
      LinesAreOneLine(s[IndexOf(s, LF) + 1..]);
    }
  }

  // ---------- White space at the end of a line does not make or hide a marker ----------

  /** A white-space character at the very end of `s`. */
  ghost predicate SpaceChar(c: bytes) {
    || (|c| == 1 && AsciiSpace(c[0]))
    || (|c| == 2 && Space2(c[0], c[1]))
    || (|c| == 3 && Space3(c[0], c[1], c[2]))
  }

  lemma TrailingIsChar(s: bytes)
    requires TrailingSpace(s) > 0
    ensures SpaceChar(s[|s| - TrailingSpace(s)..])
  {
  }

  lemma LeadingUnchanged(s: bytes, c: bytes)
    requires s != [] && SpaceChar(c)
    ensures LeadingSpace(s + c) == LeadingSpace(s)
  {
    var u := s + c;
    assert u[0] == s[0] && u[|s|] == c[0];
    assert |s| > 1 ==> u[1] == s[1];
    assert |s| > 2 ==> u[2] == s[2];
  }

  lemma TrailingDropped(s: bytes, c: bytes)
    requires SpaceChar(c)
    ensures TrimEnd(s + c) == TrimEnd(s)
  {
    var u := s + c;
    assert u[..|s|] == s && u[|u| - 1] == c[|c| - 1];
    assert |c| >= 2 ==> u[|u| - 2] == c[|c| - 2];
    assert |c| >= 3 ==> u[|u| - 3] == c[|c| - 3];
  }

  lemma TrimOfSpace(c: bytes)
    requires SpaceChar(c)
    ensures Trim(c) == []
  {
    assert LeadingSpace(c) == |c|;
    assert c[|c|..] == [];
    assert TrimStart(c) == TrimStart([]) == [];
  }

  lemma {:induction false} TrimIgnoresTrailing(s: bytes, c: bytes)
    requires SpaceChar(c)
    ensures Trim(s + c) == Trim(s)
    decreases |s|
  {
    if s == [] {
      assert s + c == c;
      TrimOfSpace(c);
    } else {
      LeadingUnchanged(s, c);
      var n := LeadingSpace(s);
      if n == 0 {
        TrailingDropped(s, c);
      } else {
        assert (s + c)[n..] == s[n..] + c;
        TrimIgnoresTrailing(s[n..], c);
      }
    }
  }

  lemma StripCrKeepsMarker(l: bytes)
    ensures IsMarker(StripCr(l)) <==> IsMarker(l)
    ensures IsEnd(StripCr(l)) <==> IsEnd(l)
    ensures IsBegin(StripCr(l)) <==> IsBegin(l)
  {
    hide Trim;
    if StripCr(l) != l {
      assert l == StripCr(l) + [CR];
      TrimIgnoresTrailing(StripCr(l), [CR]);
    }
  }

  ghost predicate NoMarkers(lines: seq<bytes>) {
    forall i :: 0 <= i < |lines| ==> !IsMarker(lines[i])
  }

  lemma {:induction false} PiecesSnoc(s: bytes, c: bytes)
    requires OneLine(c)
    ensures var p := Pieces(s); Pieces(s + c) == p[..|p| - 1] + [p[|p| - 1] + c]
    decreases |s|
  {
    hide Pieces, Lines;
    if OneLine(s) {
      NoLf(s);
      NoLf(s + c);
    } else {
      var head, tail := CutAtLf(s);
      FirstLine(head, tail);
      assert s + c == head + [LF] + (tail + c);
      FirstLine(head, tail + c);
      PiecesSnoc(tail, c);
    }
  }

  lemma {:induction false} PiecesLf(s: bytes)
    ensures Pieces(s + [LF]) == Pieces(s) + [[]]
    decreases |s|
  {
    hide Pieces, Lines;
    if OneLine(s) {
      NoLf(s);
      NoLf([]);
      FirstLine(s, []);
      assert s + [LF] + [] == s + [LF];
    } else {
      var head, tail := CutAtLf(s);
      FirstLine(head, tail);
      assert s + [LF] == head + [LF] + (tail + [LF]);
      FirstLine(head, tail + [LF]);
      PiecesLf(tail);
    }
  }

  lemma DropTrailing(t: bytes, c: bytes)
    requires SpaceChar(c) && NoMarkers(Pieces(t + c))
    ensures NoMarkers(Pieces(t))
  {
    hide IsMarker, Pieces;
    var p := Pieces(t);
    if c == [LF] {
      PiecesLf(t);
      assert forall i :: 0 <= i < |p| ==> p[i] == Pieces(t + c)[i];
    } else {
      assert OneLine(c);
      PiecesSnoc(t, c);
      LastPieceMarker(p[|p| - 1], c);
      assert Pieces(t + c)[|p| - 1] == p[|p| - 1] + c;
      assert forall i :: 0 <= i < |p| - 1 ==> p[i] == Pieces(t + c)[i];
    }
  }

  lemma {:induction false} TrimEndKeepsNoMarkers(s: bytes)
    requires NoMarkers(Pieces(s))
    ensures NoMarkers(Pieces(TrimEnd(s)))
    decreases |s|
  {
    hide NoMarkers, Pieces;
    var n := TrailingSpace(s);
    if n > 0 {
      var t, c := s[..|s| - n], s[|s| - n..];
      assert s == t + c;
      TrailingIsChar(s);
      DropTrailing(t, c);
      TrimEndKeepsNoMarkers(t);
    }
  }

  lemma LastPieceMarker(l: bytes, c: bytes)
    requires SpaceChar(c)
    ensures IsMarker(l + c) <==> IsMarker(l)
  {
    TrimIgnoresTrailing(l, c);
  }

  // ---------- Reading back what was written ----------

  lemma {:induction false} AllKept(lines: seq<bytes>, upTo: nat)
    requires upTo <= |lines| && forall i :: 0 <= i < upTo ==> !IsMarker(lines[i])
    ensures OutsideLines(lines, upTo) == lines[..upTo]
  {
    hide IsBegin, IsEnd;
    if upTo > 0 {
      AllKept(lines, upTo - 1);
      assert Outside(lines, upTo - 1) by {
        forall b | 0 <= b < upTo - 1
          ensures !IsBegin(lines[b])
        {
          assert !IsMarker(lines[b]);
        }
      }
      assert lines[..upTo] == lines[..upTo - 1] + [lines[upTo - 1]];
    }
  }

  /** Nothing from a begin marker on is kept while no end marker but the last line follows. */
  lemma {:induction false} RegionDropped(lines: seq<bytes>, b: nat, upTo: nat)
    requires b < |lines| && b <= upTo <= |lines| && IsBegin(lines[b]) && IsEnd(lines[|lines| - 1])
    requires forall e :: b < e < |lines| - 1 ==> !IsEnd(lines[e])
    ensures OutsideLines(lines, upTo) == OutsideLines(lines, b)
  {
    hide IsBegin, IsEnd;
    if b < upTo {
      RegionDropped(lines, b, upTo - 1);
      assert !Outside(lines, upTo - 1);
    }
  }

  /** The rendered block is one region: it starts with the begin marker and only its last
      line is an end marker. */
  ghost predicate IsRegion(block: seq<bytes>) {
    && |block| > 0 && AllOneLine(block) && IsBegin(block[0]) && IsEnd(block[|block| - 1])
    && forall e :: 0 < e < |block| - 1 ==> !IsEnd(block[e])
  }

  lemma StripAllKeepsRegion(block: seq<bytes>)
    requires IsRegion(block)
    ensures var r := StripAll(block);
            IsBegin(r[0]) && IsEnd(r[|r| - 1]) && forall e :: 0 < e < |r| - 1 ==> !IsEnd(r[e])
  {
    hide IsBegin, IsEnd, StripCr;
    forall i | 0 <= i < |block|
      ensures IsBegin(StripAll(block)[i]) <==> IsBegin(block[i])
      ensures IsEnd(StripAll(block)[i]) <==> IsEnd(block[i])
    {
      StripCrKeepsMarker(block[i]);
    }
  }

  /** Of unmarked lines followed by one region, exactly the unmarked lines are kept. */
  lemma RegionAfterLines(head: seq<bytes>, region: seq<bytes>)
    requires NoMarkers(head)
    requires |region| > 0 && IsBegin(region[0]) && IsEnd(region[|region| - 1])
    requires forall e :: 0 < e < |region| - 1 ==> !IsEnd(region[e])
    ensures OutsideLines(head + region, |head + region|) == head
  {
    hide IsBegin, IsEnd, IsMarker;
    var lines := head + region;
    assert forall i :: 0 <= i < |head| ==> lines[i] == head[i];
    AllKept(lines, |head|);
    assert forall i :: |head| <= i < |lines| ==> lines[i] == region[i - |head|];
    RegionDropped(lines, |head|, |lines|);
    assert lines[..|head|] == head;
  }

  /** Stripping the kept text followed by an empty line and the block. */
  lemma StripAfterWrite(kept: bytes, block: seq<bytes>)
    requires NoMarkers(Pieces(kept)) && IsRegion(block)
    ensures Strip(kept + [LF] + [LF] + Unlines(block)) == TrimEnd(Join(StripAll(Pieces(kept))))
  {
    hide IsBegin, IsEnd, IsMarker, TrimEnd, IsRegion, Lines, OutsideLines, Pieces, Unlines, Join;
    var head, region := StripAll(Pieces(kept)), StripAll(block);
    LinesOfWritten(kept, block);
    forall i | 0 <= i < |head|
      ensures !IsMarker(head[i])
    {
      StripCrKeepsMarker(Pieces(kept)[i]);
    }
    EmptyIsNoMarker();
    RegionIsNotEmpty(block);
    StripAllKeepsRegion(block);
    RegionAfterLines(head + [[]], region);
    JoinSnoc(head, []);
    assert Join(head) + [LF] + [] == Join(head) + [LF];
    TrimEndDropsAscii(Join(head), LF);
  }

  lemma RegionIsNotEmpty(block: seq<bytes>)
    requires IsRegion(block)
    ensures |block| > 0
  {
  }

  lemma EmptyIsNoMarker()
    ensures !IsMarker([])
  {
    assert Trim([]) == [];
    assert |Begin()| > 0 && |End()| > 0;
  }

  lemma LinesOfWritten(kept: bytes, block: seq<bytes>)
    requires IsRegion(block)
    ensures Lines(kept + [LF] + [LF] + Unlines(block)) == StripAll(Pieces(kept)) + [[]] + StripAll(block)
  {
    hide IsBegin, IsEnd, StripCr, Lines, Pieces, StripAll, Unlines;
    var rest := Unlines(block);
    assert block != [] && AllOneLine(block) by { RegionIsNotEmpty(block); }
    hide IsRegion, AllOneLine;
    LinesOfUnlines(block);
    LinesOfTerminated([], rest);
    EmptyPieces();
    assert [] + [LF] + rest == [LF] + rest;
    LinesOfTerminated(kept, [LF] + rest);
    assert kept + [LF] + ([LF] + rest) == kept + [LF] + [LF] + rest;
    var a, c := StripAll(Pieces(kept)), StripAll(block);
    assert a + ([[]] + c) == a + [[]] + c;
  }

  lemma EmptyPieces()
    ensures StripAll(Pieces([])) == [[]]
  {
  }

  // ---------- Carriage returns ----------

  /** No carriage return stands right before a line feed. */
  ghost predicate NoCrLf(s: bytes) {
    forall i :: 0 <= i < |s| - 1 ==> !(s[i] == CR && s[i + 1] == LF)
  }

  lemma {:induction false} StripAllShrinks(lines: seq<bytes>)
    ensures |Join(StripAll(lines))| <= |Join(lines)|
    ensures StripAll(lines) != lines ==> |Join(StripAll(lines))| < |Join(lines)|
    decreases |lines|
  {
    if |lines| > 1 {
      StripAllShrinks(lines[1..]);
      assert StripAll(lines)[1..] == StripAll(lines[1..]);
      assert StripAll(lines)[0] == StripCr(lines[0]);
      assert lines == [lines[0]] + lines[1..];
    } else if |lines| == 1 {
      assert StripAll(lines) == [StripCr(lines[0])];
    }
  }

  /** Dropping one carriage return per line changes nothing exactly when there is none. */
  lemma {:induction false} StripAllIsIdentity(s: bytes)
    requires s == [] || s[|s| - 1] != CR
    ensures StripAll(Pieces(s)) == Pieces(s) <==> NoCrLf(s)
    decreases |s|
  {
    hide Pieces, StripAll, NoCrLf;
    if OneLine(s) {
      NoLf(s);
      OneStripped(s);
      NoLfNoCrLf(s);
    } else {
      var head, tail := CutAtLf(s);
      FirstLine(head, tail);
      StripAllCons(head, Pieces(tail));
      StripAllIsIdentity(tail);
      SameCons(StripCr(head), head, StripAll(Pieces(tail)), Pieces(tail));
      assert s[..|head|] == head && s[|head| + 1..] == tail;
      NoCrLfSplit(s, |head|);
    }
  }

  lemma NoLfNoCrLf(s: bytes)
    requires OneLine(s)
    ensures NoCrLf(s)
  {
  }

  lemma SameCons(x: bytes, y: bytes, p: seq<bytes>, q: seq<bytes>)
    ensures [x] + p == [y] + q <==> x == y && p == q
  {
    assert ([x] + p)[0] == x && ([y] + q)[0] == y && ([x] + p)[1..] == p && ([y] + q)[1..] == q;
  }

  lemma NoCrLfSplit(s: bytes, k: nat)
    requires k < |s| && s[k] == LF && OneLine(s[..k])
    ensures NoCrLf(s) <==> (k > 0 ==> s[k - 1] != CR) && NoCrLf(s[k + 1..])
  {
    var tail := s[k + 1..];
    if NoCrLf(s) {
      forall i | 0 <= i < |tail| - 1
        ensures !(tail[i] == CR && tail[i + 1] == LF)
      {
        assert !(s[k + 1 + i] == CR && s[k + 1 + i + 1] == LF);
      }
    }
    if NoCrLf(tail) && (k > 0 ==> s[k - 1] != CR) {
      forall i | 0 <= i < |s| - 1
        ensures !(s[i] == CR && s[i + 1] == LF)
      {
        if i + 1 < k {
          assert s[..k][i + 1] != LF;
        } else if i > k {
          assert s[i] == tail[i - k - 1] && s[i + 1] == tail[i - k];
        }
      }
    }
  }

  // ---------- The fixed point ----------

  lemma StripHasNoMarkers(x: bytes)
    ensures NoMarkers(Pieces(Strip(x)))
    ensures TrailingSpace(Strip(x)) == 0 && TrimEnd(Strip(x)) == Strip(x)
  {
    hide IsMarker, TrimEnd, Outside;
    var lines := Lines(x);
    var kept := OutsideLines(lines, |lines|);
    LinesAreOneLine(x);
    KeptLines(lines, |lines|);
    TrimEndFacts(Join(kept));
    TrimEndOfTrimmed(Strip(x));
    if kept == [] {
      EmptyIsNoMarker();
      assert Pieces(Join(kept)) == [[]];
    } else {
      PiecesJoin(kept);
    }
    TrimEndKeepsNoMarkers(Join(kept));
  }

  lemma TrimEndOfTrimmed(s: bytes)
    requires TrailingSpace(s) == 0
    ensures TrimEnd(s) == s
  {
  }

  lemma {:induction false} KeptLines(lines: seq<bytes>, upTo: nat)
    requires upTo <= |lines| && AllOneLine(lines)
    ensures AllOneLine(OutsideLines(lines, upTo)) && NoMarkers(OutsideLines(lines, upTo))
  {
    hide IsMarker;
    if upTo > 0 {
      KeptLines(lines, upTo - 1);
    }
  }

  /** What stripping gives after a write: the kept text again, if and only if it has no
      line ending in a carriage return. */
  lemma StripOfWritten(x: bytes, command: bytes, baseUrl: bytes)
    requires x != [] && IsRegion(BlockLines(command, baseUrl))
    ensures Strip(Written(x, command, baseUrl)) == Strip(x) <==> NoCrLf(Strip(x))
  {
    hide IsRegion, BlockLines, IsMarker, TrimEnd;
    var kept, block := Strip(x), BlockLines(command, baseUrl);
    StripHasNoMarkers(x);
    NotSpaceAtEnd(kept);
    hide Strip;
    StripAfterWrite(kept, block);
    assert Written(x, command, baseUrl) == kept + [LF] + [LF] + Unlines(block);
    JoinPieces(kept);
    StripAllIsIdentity(kept);
    var again := Join(StripAll(Pieces(kept)));
    if !NoCrLf(kept) {
      StripAllShrinks(Pieces(kept));
      TrimEndFacts(again);
      assert |TrimEnd(again)| < |kept|;
    }
  }

  lemma NotSpaceAtEnd(s: bytes)
    requires TrailingSpace(s) == 0
    ensures s != [] ==> s[|s| - 1] != CR && s[|s| - 1] != LF
  {
  }

  lemma WrittenIsNotEmpty(x: bytes, command: bytes, baseUrl: bytes)
    requires IsRegion(BlockLines(command, baseUrl))
    ensures Written(x, command, baseUrl) != []
  {
    hide IsRegion, BlockLines, Strip;
    RegionIsNotEmpty(BlockLines(command, baseUrl));
    UnlinesIsJoin(BlockLines(command, baseUrl));
  }

  /** Writing twice is writing once, if and only if the file was not empty and no line the
      user keeps ends in a carriage return of its own. */
  lemma WriteIsFixedPoint(x: bytes, command: bytes, baseUrl: bytes)
    requires IsRegion(BlockLines(command, baseUrl))
    ensures Written(Written(x, command, baseUrl), command, baseUrl) == Written(x, command, baseUrl)
            <==> x != [] && NoCrLf(Strip(x))
  {
    hide IsRegion, BlockLines, Strip, Unlines;
    var w := Written(x, command, baseUrl);
    WrittenIsNotEmpty(x, command, baseUrl);
    StripEndsWithoutLf(w);
    StripEndsWithoutLf(x);
    var block := Block(command, baseUrl);
    assert Written(w, command, baseUrl) == Strip(w) + [LF] + [LF] + block;
    if x == [] {
      assert |Strip(w) + [LF] + [LF] + block| > |block|;
    } else {
      StripOfWritten(x, command, baseUrl);
      assert w == Strip(x) + [LF] + [LF] + block;
      SamePrefix(Strip(w), Strip(x), [LF] + [LF] + block);
      assert Strip(w) + [LF] + [LF] + block == Strip(w) + ([LF] + [LF] + block);
      assert Strip(x) + [LF] + [LF] + block == Strip(x) + ([LF] + [LF] + block);
    }
  }

  lemma SamePrefix(a: bytes, b: bytes, t: bytes)
    ensures a + t == b + t <==> a == b
  {
    if a + t == b + t {
      assert |a + t| == |b + t|;
      assert a == (a + t)[..|a|] == (b + t)[..|b|] == b;
    }
  }

  lemma StripEndsWithoutLf(x: bytes)
    ensures !EndsWithLf(Strip(x))
  {
    StripHasNoMarkers(x);
    NotSpaceAtEnd(Strip(x));
  }

  /** From the empty file the fixed point is reached at the second write. */
  lemma EmptySettlesAtSecondWrite(command: bytes, baseUrl: bytes)
    requires IsRegion(BlockLines(command, baseUrl))
    ensures var w2 := Written(Written([], command, baseUrl), command, baseUrl);
            w2 != Written([], command, baseUrl) && Written(w2, command, baseUrl) == w2
  {
    hide Strip, IsRegion, BlockLines;
    var w1 := Written([], command, baseUrl);
    WriteIsFixedPoint([], command, baseUrl);
    WrittenIsNotEmpty([], command, baseUrl);
    StripOfBlock(command, baseUrl);
    WriteIsFixedPoint(w1, command, baseUrl);
  }

  lemma StripOfBlock(command: bytes, baseUrl: bytes)
    requires IsRegion(BlockLines(command, baseUrl))
    ensures Strip(Block(command, baseUrl)) == []
  {
    hide IsBegin, IsEnd, BlockLines;
    var block := BlockLines(command, baseUrl);
    LinesOfUnlines(block);
    StripAllKeepsRegion(block);
    var lines := StripAll(block);
    RegionDropped(lines, 0, |lines|);
    assert OutsideLines(lines, 0) == [];
    assert TrimEnd([]) == [];
  }
}
