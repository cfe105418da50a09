/** The slug of a host name: its lower-cased alphanumeric runs joined by single dashes. */
module SlugHostname {
  predicate Alphanumeric(c: char) {
    '0' <= c <= '9' || 'A' <= c <= 'Z' || 'a' <= c <= 'z'
  }

  function Lower(c: char): char {
    if 'A' <= c <= 'Z' then 'a' + (c - 'A') else c
  }

  predicate InRun(c: char) {
    '0' <= c <= '9' || 'a' <= c <= 'z'
  }

  predicate Ends(s: string) {
    s != [] && Alphanumeric(s[|s| - 1])
  }

  /** The maximal runs of ASCII letters and digits, lower-cased. */
  function Runs(s: string): (runs: seq<string>)
    ensures Ends(s) ==> runs != []
  {
    if s == [] then []
    else
      var front, c := s[..|s| - 1], s[|s| - 1];
      var runs := Runs(front);
      if !Alphanumeric(c) then runs
      else if Ends(front) then runs[..|runs| - 1] + [runs[|runs| - 1] + [Lower(c)]]
      else runs + [[Lower(c)]]
  }

  function Join(runs: seq<string>): string {
    if runs == [] then []
    else if |runs| == 1 then runs[0]
    else Join(runs[..|runs| - 1]) + "-" + runs[|runs| - 1]
  }

  function Slug(s: string): string {
    Join(Runs(s))
  }

  predicate Run(run: string) {
    run != [] && forall i :: 0 <= i < |run| ==> InRun(run[i])
  }

  predicate AllRuns(runs: seq<string>) {
    forall i :: 0 <= i < |runs| ==> Run(runs[i])
  }

  method SlugOf(input: string) returns (out: string)
    ensures out == Slug(input)
  {
    hide Runs, Join, Slug;
    assert Slug("") == "" && Runs("") == [] by { NothingToRead(); }
    out := [];
    var prevDash := false;
    for i := 0 to |input|
      invariant prevDash <==> i > 0 && !Alphanumeric(input[i - 1])
      invariant out == Slug(input[..i]) + if prevDash && Runs(input[..i]) != [] then "-" else ""
    {
      var c := input[i];
      var mapped := if Alphanumeric(c) then Lower(c) else '-';
      OneMore(input[..i], c);
      assert input[..i + 1] == input[..i] + [c];
      if mapped == '-' {
        if !prevDash && out != [] {
          out := out + ['-'];
        }
        prevDash := true;
      } else {
        out := out + [mapped];
        prevDash := false;
      }
    }
    assert input[..|input|] == input;
    SlugEndsInRun(input);
    while out != [] && out[|out| - 1] == '-'
      invariant out == Slug(input) || out == Slug(input) + "-"
    {
      out := out[..|out| - 1];
    }
  }

  // ---------- The loop ----------

  lemma NothingToRead()
    ensures Slug("") == "" && Runs("") == []
  {
  }

  lemma {:induction false} RunsAreRuns(s: string)
    ensures AllRuns(Runs(s))
  {
    if s != [] {
      RunsAreRuns(s[..|s| - 1]);
    }
  }

  lemma JoinSnoc(runs: seq<string>, run: string)
    ensures Join(runs + [run]) == if runs == [] then run else Join(runs) + "-" + run
  {
    assert (runs + [run])[..|runs|] == runs;
  }

  lemma {:induction false} JoinEmptyIff(runs: seq<string>)
    requires AllRuns(runs)
    ensures Join(runs) == [] <==> runs == []
    ensures runs != [] ==> InRun(Join(runs)[|Join(runs)| - 1])
  {
    if runs != [] {
      assert Run(runs[|runs| - 1]);
    }
  }

  /** What one more character does to the slug. */
  lemma OneMore(s: string, c: char)
    ensures Runs(s + [c]) == [] <==> Runs(s) == [] && !Alphanumeric(c)
    ensures Slug(s) == [] <==> Runs(s) == []
    ensures Slug(s + [c]) == if !Alphanumeric(c) then Slug(s)
                             else if Ends(s) || Runs(s) == [] then Slug(s) + [Lower(c)]
                             else Slug(s) + "-" + [Lower(c)]
  {
    assert (s + [c])[..|s|] == s;
    RunsAreRuns(s);
    var runs := Runs(s);
    JoinEmptyIff(runs);
    JoinSnoc(runs, [Lower(c)]);
    if Alphanumeric(c) && Ends(s) {
      var n := |runs| - 1;
      assert runs == runs[..n] + [runs[n]];
      JoinSnoc(runs[..n], runs[n]);
      JoinSnoc(runs[..n], runs[n] + [Lower(c)]);
    }
  }

  lemma SlugEndsInRun(s: string)
    ensures Slug(s) != [] ==> InRun(Slug(s)[|Slug(s)| - 1])
    ensures Slug(s) == [] <==> Runs(s) == []
  {
    RunsAreRuns(s);
    JoinEmptyIff(Runs(s));
  }

  // ---------- What a slug is ----------

  lemma RunsSnoc(s: string, c: char)
    ensures Ends(s + [c]) <==> Alphanumeric(c)
    ensures Runs(s + [c]) == var runs := Runs(s);
                             if !Alphanumeric(c) then runs
                             else if Ends(s) then runs[..|runs| - 1] + [runs[|runs| - 1] + [Lower(c)]]
                             else runs + [[Lower(c)]]
  {
    assert (s + [c])[..|s|] == s;
  }

  /** Reading a run after something that does not end in one. */
  lemma {:induction false} RunAppended(s: string, run: string)
    requires !Ends(s) && Run(run)
    ensures Runs(s + run) == Runs(s) + [run] && Ends(s + run)
  {
    hide Runs;
    var n := |run| - 1;
    var front, c := run[..n], run[n];
    assert InRun(c) && Lower(c) == c && Alphanumeric(c);
    RunsSnoc(s + front, c);
    assert s + run == s + front + [c] && run == front + [c];
    if n > 0 {
      RunAppended(s, front);
      var runs := Runs(s + front);
      assert runs[..|runs| - 1] == Runs(s);
    } else {
      assert s + front == s;
    }
  }

  /** Splitting joined runs gives the runs back. */
  lemma {:induction false} RunsOfJoin(runs: seq<string>)
    requires AllRuns(runs)
    ensures Runs(Join(runs)) == runs
  {
    if runs == [] {
      NothingToRead();
    } else {
      hide Runs;
      var front, run := runs[..|runs| - 1], runs[|runs| - 1];
      RunsOfJoin(front);
      assert runs == front + [run];
      if front == [] {
        NothingToRead();
        assert Join(runs) == "" + run;
        RunAppended("", run);
      } else {
        RunsSnoc(Join(front), '-');
        assert Join(runs) == Join(front) + ['-'] + run;
        RunAppended(Join(front) + ['-'], run);
      }
    }
  }

  /** A slug keeps the runs, so slugging again changes nothing. */
  lemma SlugIsIdempotent(s: string)
    ensures Runs(Slug(s)) == Runs(s) && Slug(Slug(s)) == Slug(s)
  {
    RunsAreRuns(s);
    RunsOfJoin(Runs(s));
  }

  /** Two names have one slug exactly when they have the same runs. */
  lemma SameSlugIff(s: string, t: string)
    ensures Slug(s) == Slug(t) <==> Runs(s) == Runs(t)
  {
    SlugIsIdempotent(s);
    SlugIsIdempotent(t);
  }

  predicate WellFormed(slug: string) {
    && (forall i :: 0 <= i < |slug| ==> InRun(slug[i]) || slug[i] == '-')
    && (slug != [] ==> slug[0] != '-' && slug[|slug| - 1] != '-')
    && (forall i :: 0 <= i < |slug| - 1 ==> slug[i] != '-' || slug[i + 1] != '-')
  }

  lemma {:induction false} JoinIsWellFormed(runs: seq<string>)
    requires AllRuns(runs)
    ensures WellFormed(Join(runs))
  {
    if |runs| == 1 {
      assert Run(runs[0]);
    } else if |runs| > 1 {
      var front, run := runs[..|runs| - 1], runs[|runs| - 1];
      JoinIsWellFormed(front);
      JoinEmptyIff(front);
      assert Run(run);
      var a, r := Join(front), Join(runs);
      assert r == a + "-" + run;
      forall i | 0 <= i < |r| - 1
        ensures r[i] != '-' || r[i + 1] != '-'
      {
        if i < |a| {
          assert r[i] == a[i];
        } else {
          assert r[i + 1] == run[i - |a|];
        }
      }
    }
  }

  lemma {:induction false} NoRunsIff(s: string)
    ensures Runs(s) == [] <==> forall c :: c in s ==> !Alphanumeric(c)
  {
    if s != [] {
      NoRunsIff(s[..|s| - 1]);
      assert s == s[..|s| - 1] + [s[|s| - 1]];
    }
  }

  /** Lower-case letters, digits and single inner dashes; empty only without any of them. */
  lemma SlugShape(s: string)
    ensures WellFormed(Slug(s))
    ensures Slug(s) == [] <==> forall c :: c in s ==> !Alphanumeric(c)
  {
    RunsAreRuns(s);
    JoinIsWellFormed(Runs(s));
    SlugEndsInRun(s);
    NoRunsIff(s);
  }

  /** The slugs are exactly the fixed points: a well-formed text is its own slug. */
  lemma WellFormedIsFixed(s: string)
    requires WellFormed(s)
    ensures Slug(s) == s
  {
    WellFormedPrefix(s);
  }

  predicate Opening(s: string) {
    && (forall i :: 0 <= i < |s| ==> InRun(s[i]) || s[i] == '-')
    && (s != [] ==> s[0] != '-')
    && (forall i :: 0 <= i < |s| - 1 ==> s[i] != '-' || s[i + 1] != '-')
  }

  lemma {:induction false} WellFormedPrefix(s: string)
    requires Opening(s)
    ensures s == Slug(s) + if s != [] && s[|s| - 1] == '-' then "-" else ""
  {
    hide Runs, Join, Slug;
    NothingToRead();
    if s != [] {
      var front, c := s[..|s| - 1], s[|s| - 1];
      assert forall i :: 0 <= i < |front| ==> front[i] == s[i];
      WellFormedPrefix(front);
      OneMore(front, c);
      assert s == front + [c];
    }
  }

  /** Each upper-case letter becomes its own lower-case one, everything else alphanumeric stays. */
  lemma LettersKeepTheirPlace(k: nat)
    requires k < 26
    ensures Slug(["ABCDEFGHIJKLMNOPQRSTUVWXYZ"[k]]) == ["abcdefghijklmnopqrstuvwxyz"[k]]
  {
    var upper, lower := "ABCDEFGHIJKLMNOPQRSTUVWXYZ"[k], "abcdefghijklmnopqrstuvwxyz"[k];
    InAlphabet(k);
    OneLetter(upper);
  }

  lemma InAlphabet(k: nat)
    requires k < 26
    ensures "ABCDEFGHIJKLMNOPQRSTUVWXYZ"[k] as int == 65 + k && "abcdefghijklmnopqrstuvwxyz"[k] as int == 97 + k
  {
  }

  lemma OneLetter(c: char)
    requires Alphanumeric(c)
    ensures Slug([c]) == [Lower(c)]
  {
    assert Runs([]) == [] && [c][..0] == [];
    assert Runs([c]) == [[Lower(c)]];
  }
}
