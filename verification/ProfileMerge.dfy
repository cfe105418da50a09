/** Seeding a profile directory from the global one: the recursive copy, and the merge that
    adds what is missing and never touches what is there. */
module ProfileMerge {

  datatype Name = Name(text: string)

  type Path = seq<Name>

  datatype Node = File(content: string) | Dir

  type Tree = map<Path, Node>

  /** Every path but the root lies in a directory. */
  ghost predicate WellFormed(fs: Tree) {
    forall p :: p in fs && p != [] ==> p[..|p| - 1] in fs && fs[p[..|p| - 1]].Dir?
  }

  /** Neither path contains the other. */
  predicate Apart(a: Path, b: Path) {
    !(a <= b) && !(b <= a)
  }

  /** The path standing to `to` as `p` stands to `from`. */
  function Rebase(p: Path, from: Path, to: Path): Path
    requires from <= p
  {
    to + p[|from|..]
  }

  // ---------- Exact copies ----------

  /** `fs'` is `fs` with a copy at `dst` of what lies at `src` under the given first names. */
  ghost predicate CopiedUnder(fs: Tree, fs': Tree, src: Path, dst: Path, names: set<Name>) {
    && (forall p :: p in fs' <==> p in fs || p == dst || (dst < p && p[|dst|] in names && Rebase(p, dst, src) in fs))
    && (forall p :: p in fs' ==> fs'[p] == if p in fs then fs[p] else if p == dst then Dir else fs[Rebase(p, dst, src)])
  }

  /** `fs'` is `fs` with a copy at `dst` of everything at `src`. */
  ghost predicate Copied(fs: Tree, fs': Tree, src: Path, dst: Path) {
    && (forall p :: p in fs' <==> p in fs || (dst <= p && Rebase(p, dst, src) in fs))
    && (forall p :: p in fs' ==> fs'[p] == if p in fs then fs[p] else fs[Rebase(p, dst, src)])
  }

  ghost predicate Shallow(fs: Tree, src: Path, height: nat) {
    forall p :: p in fs && src <= p ==> |p| <= |src| + height
  }

  // ---------- Facts about paths ----------

  lemma {:induction false} AncestorsAreDirs(fs: Tree, r: Path, p: Path)
    requires WellFormed(fs) && p in fs && r < p
    ensures r in fs && fs[r].Dir?
    decreases |p|
  {
    var parent := p[..|p| - 1];
    if |r| == |parent| {
      assert r == parent;
    } else {
      assert r < parent;
      AncestorsAreDirs(fs, r, parent);
    }
  }

  lemma BelowChild(dst: Path, n: Name, p: Path)
    ensures dst + [n] <= p <==> dst < p && p[|dst|] == n
  {
    if dst < p && p[|dst|] == n {
      assert p[..|dst| + 1] == dst + [n];
    }
    if dst + [n] <= p {
      assert p[|dst|] == (dst + [n])[|dst|];
      assert dst == (dst + [n])[..|dst|] == p[..|dst|];
    }
  }

  lemma RebaseChild(src: Path, dst: Path, n: Name, p: Path)
    requires dst + [n] <= p
    ensures dst < p && Rebase(p, dst + [n], src + [n]) == Rebase(p, dst, src)
    ensures src + [n] <= Rebase(p, dst, src)
  {
    BelowChild(dst, n, p);
    assert p[|dst|..] == [n] + p[|dst| + 1..];
    assert src + ([n] + p[|dst| + 1..]) == (src + [n]) + p[|dst| + 1..];
  }

  lemma PrefixesOfOne(a: Path, b: Path, p: Path)
    requires a <= p && b <= p
    ensures a <= b || b <= a
  {
    if |a| <= |b| {
      assert b[..|a|] == p[..|a|] == a;
    } else {
      assert a[..|b|] == p[..|b|] == b;
    }
  }

  /** What lies at the source is not below the destination. */
  lemma SourceIsElsewhere(src: Path, dst: Path, p: Path)
    requires Apart(src, dst) && src <= p
    ensures !(dst <= p) && p != dst
  {
    if dst <= p {
      PrefixesOfOne(src, dst, p);
    }
  }

  lemma ParentsOrdered(a: Path, b: Path, n: Name)
    requires a + [n] <= b + [n]
    ensures a <= b
  {
    assert a == (a + [n])[..|a|] == (b + [n])[..|a|] == b[..|a|];
  }

  lemma ChildrenApart(src: Path, dst: Path, n: Name)
    requires Apart(src, dst)
    ensures Apart(src + [n], dst + [n])
  {
    if src + [n] <= dst + [n] {
      ParentsOrdered(src, dst, n);
    }
    if dst + [n] <= src + [n] {
      ParentsOrdered(dst, src, n);
    }
  }

  // ---------- Steps of the copy ----------

  lemma StartCopy(fs: Tree, src: Path, dst: Path)
    requires WellFormed(fs) && dst !in fs && dst != [] && dst[..|dst| - 1] in fs && fs[dst[..|dst| - 1]].Dir?
    ensures CopiedUnder(fs, fs[dst := Dir], src, dst, {}) && WellFormed(fs[dst := Dir])
  {
  }

  /** A file has nothing below it, so copying it settles everything under its name. */
  lemma OnlyTheFile(before: Tree, src: Path, dst: Path, n: Name, p: Path)
    requires WellFormed(before) && dst + [n] !in before
    requires src + [n] in before && before[src + [n]].File? && dst + [n] <= p
    ensures dst < p && p[|dst|] == n && p !in before
    ensures Rebase(p, dst, src) in before <==> p == dst + [n]
    ensures p == dst + [n] ==> Rebase(p, dst, src) == src + [n]
  {
    BelowChild(dst, n, p);
    NothingBelow(before, dst + [n], p);
    RebaseChild(src, dst, n, p);
    var q := Rebase(p, dst, src);
    if p == dst + [n] {
      assert p[|dst|..] == [n];
    } else if q in before {
      assert |q| > |src| + 1;
      AncestorsAreDirs(before, src + [n], q);
    }
  }

  lemma CopyFileStep(before: Tree, fs: Tree, src: Path, dst: Path, names: set<Name>, n: Name)
    requires WellFormed(before) && dst !in before && CopiedUnder(before, fs, src, dst, names)
    requires n !in names && src + [n] in before && before[src + [n]].File?
    ensures CopiedUnder(before, fs[dst + [n] := before[src + [n]]], src, dst, names + {n})
  {
    hide WellFormed;
    var target := dst + [n];
    var fs' := fs[target := before[src + [n]]];
    NothingBelow(before, dst, target);
    forall p
      ensures p in fs' <==>
                p in before || p == dst || (dst < p && p[|dst|] in names + {n} && Rebase(p, dst, src) in before)
      ensures p in fs' ==>
                fs'[p] == if p in before then before[p] else if p == dst then Dir else before[Rebase(p, dst, src)]
    {
      BelowChild(dst, n, p);
      if target <= p {
        OnlyTheFile(before, src, dst, n, p);
      }
    }
  }

  lemma AddFileKeepsWellFormed(fs: Tree, dir: Path, n: Name, file: Node)
    requires WellFormed(fs) && dir in fs && fs[dir].Dir? && dir + [n] !in fs
    ensures WellFormed(fs[dir + [n] := file])
  {
    assert (dir + [n])[..|dir + [n]| - 1] == dir;
  }

  lemma NothingBelow(fs: Tree, dst: Path, p: Path)
    requires WellFormed(fs) && dst !in fs && dst <= p
    ensures p !in fs
  {
    if p != dst {
      assert dst < p;
      if p in fs {
        AncestorsAreDirs(fs, dst, p);
      }
    }
  }

  lemma CopyDirStep(before: Tree, fs: Tree, fs': Tree, src: Path, dst: Path, names: set<Name>, n: Name)
    requires WellFormed(before) && dst !in before && Apart(src, dst) && CopiedUnder(before, fs, src, dst, names)
    requires n !in names && Copied(fs, fs', src + [n], dst + [n])
    ensures CopiedUnder(before, fs', src, dst, names + {n})
  {
    forall p
      ensures p in fs' <==>
                p in before || p == dst || (dst < p && p[|dst|] in names + {n} && Rebase(p, dst, src) in before)
      ensures p in fs' ==>
                fs'[p] == if p in before then before[p] else if p == dst then Dir else before[Rebase(p, dst, src)]
    {
      BelowChild(dst, n, p);
      if dst + [n] <= p {
        NothingBelow(before, dst, p);
        RebaseChild(src, dst, n, p);
        SourceIsElsewhere(src, dst, Rebase(p, dst, src));
      }
    }
  }

  /** Before a child is copied: it is still absent, and its source is untouched. */
  lemma ChildReady(before: Tree, fs: Tree, src: Path, dst: Path, names: set<Name>, n: Name, height: nat)
    requires WellFormed(before) && dst !in before && Apart(src, dst) && CopiedUnder(before, fs, src, dst, names)
    requires n !in names && src + [n] in before && Shallow(before, src, height)
    ensures src + [n] in fs && fs[src + [n]] == before[src + [n]]
    ensures Apart(src + [n], dst + [n]) && dst + [n] !in fs && dst in fs && fs[dst].Dir? && (dst + [n])[..|dst|] == dst
    ensures height > 0 && Shallow(fs, src + [n], height - 1)
  {
    SourceIsElsewhere(src, dst, src + [n]);
    ChildrenApart(src, dst, n);
    NothingBelow(before, dst, dst + [n]);
    BelowChild(dst, n, dst + [n]);
    forall p | p in fs && src + [n] <= p
      ensures |p| <= |src + [n]| + (height - 1)
    {
      BelowChild(src, n, p);
      SourceIsElsewhere(src, dst, p);
    }
  }

  lemma CopyDone(before: Tree, fs: Tree, src: Path, dst: Path, names: set<Name>)
    requires WellFormed(before) && src in before && before[src].Dir? && dst !in before
    requires CopiedUnder(before, fs, src, dst, names) && forall n :: src + [n] in before ==> n in names
    ensures Copied(before, fs, src, dst)
  {
    forall p
      ensures p in fs <==> p in before || (dst <= p && Rebase(p, dst, src) in before)
      ensures p in fs ==> fs[p] == if p in before then before[p] else before[Rebase(p, dst, src)]
    {
      if p == dst {
        assert Rebase(p, dst, src) == src;
      } else if dst < p && Rebase(p, dst, src) in before {
        var q := Rebase(p, dst, src);
        BelowChild(dst, p[|dst|], p);
        RebaseChild(src, dst, p[|dst|], p);
        if src + [p[|dst|]] != q {
          AncestorsAreDirs(before, src + [p[|dst|]], q);
        }
      }
    }
  }

  // ---------- Merging what is missing ----------

  /** A file of the destination stands where the source has a directory above `p`. */
  ghost predicate Blocked(fs: Tree, dst: Path, p: Path) {
    exists k :: |dst| < k < |p| && p[..k] in fs && fs[p[..k]].File?
  }

  /** `p` is missing below `dst`, the source has its counterpart, and nothing is in the way. */
  ghost predicate Adds(fs: Tree, src: Path, dst: Path, p: Path) {
    dst < p && p !in fs && Rebase(p, dst, src) in fs && !Blocked(fs, dst, p)
  }

  /** `fs'` is `fs` plus the missing entries whose first name below `dst` is in `names`. */
  ghost predicate MergedUnder(fs: Tree, fs': Tree, src: Path, dst: Path, names: set<Name>) {
    && (forall p :: p in fs' <==> p in fs || (Adds(fs, src, dst, p) && p[|dst|] in names))
    && (forall p :: p in fs' ==> fs'[p] == if p in fs then fs[p] else fs[Rebase(p, dst, src)])
  }

  ghost predicate Merged(fs: Tree, fs': Tree, src: Path, dst: Path) {
    && (forall p :: p in fs' <==> p in fs || Adds(fs, src, dst, p))
    && (forall p :: p in fs' ==> fs'[p] == if p in fs then fs[p] else fs[Rebase(p, dst, src)])
  }

  /** The topmost missing entries: those whose directory is already there. */
  ghost predicate AddsRoot(fs: Tree, src: Path, dst: Path, p: Path) {
    Adds(fs, src, dst, p) && p[..|p| - 1] in fs
  }

  ghost function Candidates(fs: Tree, src: Path, dst: Path): set<Path> {
    set q | q in fs && src < q :: Rebase(q, src, dst)
  }

  ghost function RootsUnder(fs: Tree, src: Path, dst: Path, names: set<Name>): set<Path> {
    set p | p in Candidates(fs, src, dst) && AddsRoot(fs, src, dst, p) && p[|dst|] in names
  }

  ghost function Roots(fs: Tree, src: Path, dst: Path): set<Path> {
    set p | p in Candidates(fs, src, dst) && AddsRoot(fs, src, dst, p)
  }

  lemma AddsIsCandidate(fs: Tree, src: Path, dst: Path, p: Path)
    requires Adds(fs, src, dst, p)
    ensures p in Candidates(fs, src, dst)
  {
    var q := Rebase(p, dst, src);
    assert src < q && Rebase(q, src, dst) == p by {
      assert q[|src|..] == p[|dst|..];
      assert dst + p[|dst|..] == p;
    }
  }

  /** Entries below an untouched name are still those of the start. */
  lemma UntouchedName(before: Tree, fs: Tree, src: Path, dst: Path, names: set<Name>, n: Name, p: Path)
    requires MergedUnder(before, fs, src, dst, names) && n !in names && dst + [n] <= p
    ensures p in fs <==> p in before
    ensures p in fs ==> fs[p] == before[p]
  {
    BelowChild(dst, n, p);
  }

  lemma SourceUntouched(before: Tree, fs: Tree, src: Path, dst: Path, names: set<Name>, q: Path)
    requires MergedUnder(before, fs, src, dst, names) && Apart(src, dst) && src <= q
    ensures q in fs <==> q in before
    ensures q in fs ==> fs[q] == before[q]
  {
    SourceIsElsewhere(src, dst, q);
  }

  /** What a merge of the children adds is what the merge of the parents adds below them. */
  lemma AddsBelowChild(before: Tree, fs: Tree, src: Path, dst: Path, names: set<Name>, n: Name, p: Path)
    requires MergedUnder(before, fs, src, dst, names) && Apart(src, dst) && n !in names
    requires dst + [n] in before && before[dst + [n]].Dir?
    ensures Adds(fs, src + [n], dst + [n], p) <==> dst + [n] <= p && Adds(before, src, dst, p)
  {
    if dst + [n] <= p {
      BelowChild(dst, n, p);
      RebaseChild(src, dst, n, p);
      UntouchedName(before, fs, src, dst, names, n, p);
      SourceUntouched(before, fs, src, dst, names, Rebase(p, dst, src));
      forall k | |dst| + 1 < k <= |p|
        ensures p[..k] in fs <==> p[..k] in before
        ensures p[..k] in fs ==> fs[p[..k]] == before[p[..k]]
      {
        assert dst + [n] == p[..|dst| + 1] == p[..k][..|dst| + 1];
        UntouchedName(before, fs, src, dst, names, n, p[..k]);
      }
      assert p[..|dst| + 1] == dst + [n];
      assert |p| == |dst| + 1 ==> p == dst + [n];
      if Blocked(before, dst, p) {
        var k :| |dst| < k < |p| && p[..k] in before && before[p[..k]].File?;
        assert k != |dst| + 1;
        assert Blocked(fs, dst + [n], p);
      }
      if Blocked(fs, dst + [n], p) {
        var k :| |dst + [n]| < k < |p| && p[..k] in fs && fs[p[..k]].File?;
        assert Blocked(before, dst, p);
      }
    }
  }

  // ---------- Steps of the merge ----------

  /** One child has been dealt with: exactly its missing entries were added. */
  ghost predicate ChildMerged(before: Tree, fs: Tree, fs': Tree, src: Path, dst: Path, n: Name) {
    && (forall p :: p in fs' <==> p in fs || (dst + [n] <= p && Adds(before, src, dst, p)))
    && (forall p :: p in fs' ==> fs'[p] == if p in fs then fs[p] else before[Rebase(p, dst, src)])
  }

  lemma ChildMergedExtends(before: Tree, fs: Tree, fs': Tree, src: Path, dst: Path, names: set<Name>, n: Name)
    requires MergedUnder(before, fs, src, dst, names) && n !in names && ChildMerged(before, fs, fs', src, dst, n)
    ensures MergedUnder(before, fs', src, dst, names + {n})
  {
    hide Blocked;
    forall p
      ensures p in fs' <==> p in before || (Adds(before, src, dst, p) && p[|dst|] in names + {n})
      ensures p in fs' ==> fs'[p] == if p in before then before[p] else before[Rebase(p, dst, src)]
    {
      BelowChild(dst, n, p);
    }
  }

  lemma AbsentChildAdds(before: Tree, src: Path, dst: Path, n: Name, p: Path)
    requires WellFormed(before) && dst + [n] !in before && dst + [n] <= p
    ensures p !in before
    ensures Adds(before, src, dst, p) <==> Rebase(p, dst, src) in before
  {
    BelowChild(dst, n, p);
    RebaseChild(src, dst, n, p);
    NothingBelow(before, dst + [n], p);
    forall k | |dst| < k < |p|
      ensures p[..k] !in before
    {
      assert dst + [n] == p[..|dst| + 1] == p[..k][..|dst| + 1];
      NothingBelow(before, dst + [n], p[..k]);
    }
  }

  lemma CopiedChildMerges(before: Tree, fs: Tree, fs': Tree, src: Path, dst: Path, names: set<Name>, n: Name)
    requires WellFormed(before) && Apart(src, dst) && MergedUnder(before, fs, src, dst, names) && n !in names
    requires dst + [n] !in before && Copied(fs, fs', src + [n], dst + [n])
    ensures ChildMerged(before, fs, fs', src, dst, n)
  {
    hide WellFormed, Blocked, MergedUnder;
    forall p
      ensures p in fs' <==> p in fs || (dst + [n] <= p && Adds(before, src, dst, p))
      ensures p in fs' ==> fs'[p] == if p in fs then fs[p] else before[Rebase(p, dst, src)]
    {
      if dst + [n] <= p {
        AbsentChildAdds(before, src, dst, n, p);
        UntouchedName(before, fs, src, dst, names, n, p);
        RebaseChild(src, dst, n, p);
        SourceUntouched(before, fs, src, dst, names, Rebase(p, dst, src));
      }
    }
  }

  lemma CopiedFileMerges(before: Tree, fs: Tree, src: Path, dst: Path, names: set<Name>, n: Name)
    requires WellFormed(before) && MergedUnder(before, fs, src, dst, names) && n !in names
    requires dst + [n] !in before && src + [n] in before && before[src + [n]].File?
    ensures ChildMerged(before, fs, fs[dst + [n] := before[src + [n]]], src, dst, n)
  {
    hide WellFormed, Adds, MergedUnder;
    var fs' := fs[dst + [n] := before[src + [n]]];
    forall p
      ensures p in fs' <==> p in fs || (dst + [n] <= p && Adds(before, src, dst, p))
      ensures p in fs' ==> fs'[p] == if p in fs then fs[p] else before[Rebase(p, dst, src)]
    {
      if dst + [n] <= p {
        AbsentChildAdds(before, src, dst, n, p);
        OnlyTheFile(before, src, dst, n, p);
        UntouchedName(before, fs, src, dst, names, n, p);
      }
    }
  }

  /** Where both sides have the name and they are not both directories, nothing is missing. */
  lemma NothingToAdd(before: Tree, src: Path, dst: Path, n: Name, p: Path)
    requires WellFormed(before) && dst + [n] in before && src + [n] in before && dst + [n] <= p
    requires before[src + [n]].File? || before[dst + [n]].File?
    ensures !Adds(before, src, dst, p)
  {
    BelowChild(dst, n, p);
    RebaseChild(src, dst, n, p);
    var q := Rebase(p, dst, src);
    if p != dst + [n] && q in before {
      assert |p| > |dst| + 1 && |q| > |src| + 1 && src + [n] < q;
      AncestorsAreDirs(before, src + [n], q);
      assert p[..|dst| + 1] == dst + [n];
      assert Blocked(before, dst, p);
    }
  }

  lemma SkippedChildMerges(before: Tree, fs: Tree, src: Path, dst: Path, names: set<Name>, n: Name)
    requires WellFormed(before) && MergedUnder(before, fs, src, dst, names) && n !in names
    requires dst + [n] in before && src + [n] in before && (before[src + [n]].File? || before[dst + [n]].File?)
    ensures ChildMerged(before, fs, fs, src, dst, n)
  {
    hide WellFormed, Adds;
    forall p | dst + [n] <= p
      ensures !Adds(before, src, dst, p)
    {
      NothingToAdd(before, src, dst, n, p);
    }
  }

  lemma MergedChildMerges(before: Tree, fs: Tree, fs': Tree, src: Path, dst: Path, names: set<Name>, n: Name)
    requires Apart(src, dst) && MergedUnder(before, fs, src, dst, names) && n !in names
    requires dst + [n] in before && before[dst + [n]].Dir? && Merged(fs, fs', src + [n], dst + [n])
    ensures ChildMerged(before, fs, fs', src, dst, n)
  {
    hide Blocked, MergedUnder;
    forall p
      ensures p in fs' <==> p in fs || (dst + [n] <= p && Adds(before, src, dst, p))
      ensures p in fs' ==> fs'[p] == if p in fs then fs[p] else before[Rebase(p, dst, src)]
    {
      AddsBelowChild(before, fs, src, dst, names, n, p);
      if dst + [n] <= p {
        RebaseChild(src, dst, n, p);
        SourceUntouched(before, fs, src, dst, names, Rebase(p, dst, src));
        UntouchedName(before, fs, src, dst, names, n, p);
      }
    }
  }

  lemma MergeDone(before: Tree, fs: Tree, src: Path, dst: Path, names: set<Name>)
    requires WellFormed(before) && MergedUnder(before, fs, src, dst, names)
    requires forall n :: src + [n] in before ==> n in names
    ensures Merged(before, fs, src, dst) && RootsUnder(before, src, dst, names) == Roots(before, src, dst)
  {
    hide Blocked;
    forall p | Adds(before, src, dst, p)
      ensures p[|dst|] in names
    {
      var q, n := Rebase(p, dst, src), p[|dst|];
      BelowChild(dst, n, p);
      RebaseChild(src, dst, n, p);
      if src + [n] != q {
        AncestorsAreDirs(before, src + [n], q);
      }
    }
  }

  // ---------- Counting what was added ----------

  lemma RootsSplit(before: Tree, src: Path, dst: Path, names: set<Name>, n: Name)
    requires n !in names
    ensures |RootsUnder(before, src, dst, names + {n})|
              == |RootsUnder(before, src, dst, names)| + |RootsUnder(before, src, dst, {n})|
  {
    hide AddsRoot, Candidates;
    var a, b := RootsUnder(before, src, dst, names), RootsUnder(before, src, dst, {n});
    assert RootsUnder(before, src, dst, names + {n}) == a + b && a !! b;
  }

  lemma AbsentChildRoots(before: Tree, src: Path, dst: Path, n: Name)
    requires WellFormed(before) && dst in before && dst + [n] !in before && src + [n] in before
    ensures RootsUnder(before, src, dst, {n}) == {dst + [n]}
  {
    hide Blocked, WellFormed;
    var child := dst + [n];
    AbsentChildAdds(before, src, dst, n, child);
    assert Rebase(child, dst, src) == src + [n] && child[..|child| - 1] == dst && child[|dst|] == n;
    AddsIsCandidate(before, src, dst, child);
    forall p | p in RootsUnder(before, src, dst, {n})
      ensures p == child
    {
      BelowChild(dst, n, p);
      if p != child {
        var parent := p[..|p| - 1];
        assert child == p[..|dst| + 1] == parent[..|dst| + 1];
        NothingBelow(before, child, parent);
      }
    }
  }

  lemma SkippedChildRoots(before: Tree, src: Path, dst: Path, n: Name)
    requires WellFormed(before) && dst + [n] in before && src + [n] in before
    requires before[src + [n]].File? || before[dst + [n]].File?
    ensures RootsUnder(before, src, dst, {n}) == {}
  {
    hide Adds, Candidates, WellFormed;
    forall p | p in RootsUnder(before, src, dst, {n})
      ensures false
    {
      RootIsBelow(before, src, dst, n, p);
      NothingToAdd(before, src, dst, n, p);
    }
  }

  lemma RootIsBelow(before: Tree, src: Path, dst: Path, n: Name, p: Path)
    requires p in RootsUnder(before, src, dst, {n})
    ensures dst + [n] <= p
  {
    BelowChild(dst, n, p);
  }

  lemma MergedChildRoots(before: Tree, fs: Tree, src: Path, dst: Path, names: set<Name>, n: Name)
    requires Apart(src, dst) && MergedUnder(before, fs, src, dst, names) && n !in names
    requires dst + [n] in before && before[dst + [n]].Dir?
    ensures RootsUnder(before, src, dst, {n}) == Roots(fs, src + [n], dst + [n])
  {
    hide Blocked, MergedUnder, Candidates;
    forall p
      ensures p in RootsUnder(before, src, dst, {n}) <==> p in Roots(fs, src + [n], dst + [n])
    {
      BelowChild(dst, n, p);
      AddsBelowChild(before, fs, src, dst, names, n, p);
      if dst + [n] <= p && Adds(before, src, dst, p) {
        AddsIsCandidate(before, src, dst, p);
        AddsIsCandidate(fs, src + [n], dst + [n], p);
        var parent := p[..|p| - 1];
        assert dst + [n] == p[..|dst| + 1] && |p| > |dst| + 1;
        assert parent[..|dst| + 1] == dst + [n];
        UntouchedName(before, fs, src, dst, names, n, parent);
      }
    }
  }

  lemma NoRootsYet(before: Tree, src: Path, dst: Path)
    ensures RootsUnder(before, src, dst, {}) == {} && MergedUnder(before, before, src, dst, {})
  {
  }

  class Disk {
    var nodes: Tree

    function Entries(dir: Path): (names: set<Name>)
      reads this
      ensures forall n :: n in names <==> dir + [n] in nodes
    {
      assert forall n :: (dir + [n])[|dir|] == n;
      assert forall p :: p in nodes && |p| == |dir| + 1 && dir <= p ==> p == dir + [p[|dir|]];
      set p | p in nodes && |p| == |dir| + 1 && dir <= p :: p[|dir|]
    }

    /** `height` bounds the depth of the source tree. */
    method CopyDirRecursive(src: Path, dst: Path, ghost height: nat)
      requires WellFormed(nodes) && Apart(src, dst) && Shallow(nodes, src, height)
      requires src in nodes && nodes[src].Dir?
      requires dst !in nodes && dst != [] && dst[..|dst| - 1] in nodes && nodes[dst[..|dst| - 1]].Dir?
      modifies this
      ensures Copied(old(nodes), nodes, src, dst) && WellFormed(nodes)
      decreases height
    {
      hide WellFormed, CopiedUnder, Copied, Shallow;
      ghost var before := nodes;
      StartCopy(before, src, dst);
      nodes := nodes[dst := Dir];
      var todo := Entries(src);
      SourceListing(before, src, dst);
      ghost var done: set<Name> := {};
      while todo != {}
        invariant forall n :: src + [n] in before <==> n in done || n in todo
        invariant done !! todo
        invariant CopiedUnder(before, nodes, src, dst, done) && WellFormed(nodes)
        decreases todo
      {
        var n :| n in todo;
        todo := todo - {n};
        var path, target := src + [n], dst + [n];
        ChildReady(before, nodes, src, dst, done, n, height);
        ghost var fs := nodes;
        if nodes[path].Dir? {
          CopyDirRecursive(path, target, height - 1);
          CopyDirStep(before, fs, nodes, src, dst, done, n);
        } else {
          CopyFileStep(before, fs, src, dst, done, n);
          AddFileKeepsWellFormed(fs, dst, n, fs[path]);
          nodes := nodes[target := nodes[path]];
        }
        done := done + {n};
      }
      CopyDone(before, nodes, src, dst, done);
    }

    /** Adds what is missing and returns how many topmost entries that was. */
    method MergeMissingDirEntries(src: Path, dst: Path, ghost height: nat) returns (copied: nat)
      requires WellFormed(nodes) && Apart(src, dst) && Shallow(nodes, src, height)
      requires src in nodes && nodes[src].Dir? && dst in nodes && nodes[dst].Dir?
      modifies this
      ensures Merged(old(nodes), nodes, src, dst) && WellFormed(nodes)
      ensures copied == |Roots(old(nodes), src, dst)|
      decreases height
    {
      hide WellFormed, MergedUnder, Merged, Copied, Shallow, Roots, RootsUnder;
      copied := 0;
      ghost var before := nodes;
      NoRootsYet(before, src, dst);
      var todo := Entries(src);
      ghost var done: set<Name> := {};
      while todo != {}
        invariant forall n :: src + [n] in before <==> n in done || n in todo
        invariant done !! todo
        invariant MergedUnder(before, nodes, src, dst, done) && WellFormed(nodes)
        invariant copied == |RootsUnder(before, src, dst, done)|
        decreases todo
      {
        var n :| n in todo;
        todo := todo - {n};
        var srcPath, dstPath := src + [n], dst + [n];
        MergeChildReady(before, nodes, src, dst, done, n, height);
        RootsSplit(before, src, dst, done, n);
        ghost var fs := nodes;
        if nodes[srcPath].Dir? {
          if dstPath !in nodes {
            CopyDirRecursive(srcPath, dstPath, height - 1);
            CopiedChildMerges(before, fs, nodes, src, dst, done, n);
            AbsentChildRoots(before, src, dst, n);
            copied := copied + 1;
          } else if nodes[dstPath].Dir? {
            var more := MergeMissingDirEntries(srcPath, dstPath, height - 1);
            MergedChildMerges(before, fs, nodes, src, dst, done, n);
            MergedChildRoots(before, fs, src, dst, done, n);
            copied := copied + more;
          } else {
            SkippedChildMerges(before, fs, src, dst, done, n);
            SkippedChildRoots(before, src, dst, n);
          }
        } else if dstPath !in nodes {
          CopiedFileMerges(before, fs, src, dst, done, n);
          AddFileKeepsWellFormed(fs, dst, n, fs[srcPath]);
          AbsentChildRoots(before, src, dst, n);
          nodes := nodes[dstPath := nodes[srcPath]];
          copied := copied + 1;
        } else {
          SkippedChildMerges(before, fs, src, dst, done, n);
          SkippedChildRoots(before, src, dst, n);
        }
        ChildMergedExtends(before, fs, nodes, src, dst, done, n);
        done := done + {n};
      }
      MergeDone(before, nodes, src, dst, done);
    }
  }

  lemma MergeChildReady(before: Tree, fs: Tree, src: Path, dst: Path, names: set<Name>, n: Name, height: nat)
    requires WellFormed(before) && Apart(src, dst) && MergedUnder(before, fs, src, dst, names) && n !in names
    requires src + [n] in before && dst in before && before[dst].Dir? && Shallow(before, src, height)
    ensures src + [n] in fs && fs[src + [n]] == before[src + [n]]
    ensures dst + [n] in fs <==> dst + [n] in before
    ensures dst + [n] in fs ==> fs[dst + [n]] == before[dst + [n]]
    ensures Apart(src + [n], dst + [n]) && dst in fs && fs[dst].Dir? && (dst + [n])[..|dst|] == dst
    ensures height > 0 && Shallow(fs, src + [n], height - 1)
  {
    hide Adds;
    SourceUntouched(before, fs, src, dst, names, src + [n]);
    ChildrenApart(src, dst, n);
    UntouchedName(before, fs, src, dst, names, n, dst + [n]);
    forall p | p in fs && src + [n] <= p
      ensures |p| <= |src + [n]| + (height - 1)
    {
      BelowChild(src, n, p);
      SourceUntouched(before, fs, src, dst, names, p);
    }
  }

  lemma SourceListing(fs: Tree, src: Path, dst: Path)
    requires Apart(src, dst)
    ensures forall n :: src + [n] in fs[dst := Dir] <==> src + [n] in fs
  {
    forall n
      ensures src + [n] != dst
    {
      SourceIsElsewhere(src, dst, src + [n]);
    }
  }

  // ---------- What the merge guarantees ----------

  /** Nothing already on the disk changes, and a missing path of the source appears below
      the destination exactly when no file of the destination blocks it. */
  lemma MergePreservesAndCompletes(fs: Tree, fs': Tree, src: Path, dst: Path, p: Path)
    requires Merged(fs, fs', src, dst)
    ensures p in fs ==> p in fs' && fs'[p] == fs[p]
    ensures dst < p && p !in fs && Rebase(p, dst, src) in fs ==>
              (p in fs' <==> !Blocked(fs, dst, p)) && (p in fs' ==> fs'[p] == fs[Rebase(p, dst, src)])
    ensures !(dst < p) ==> (p in fs' <==> p in fs)
  {
  }

  lemma {:induction false} TopmostMissing(fs: Tree, src: Path, dst: Path, p: Path) returns (root: Path)
    requires WellFormed(fs) && src in fs && dst in fs && Adds(fs, src, dst, p)
    ensures root in Roots(fs, src, dst)
    decreases |p|
  {
    var parent := p[..|p| - 1];
    if parent in fs {
      AddsIsCandidate(fs, src, dst, p);
      root := p;
    } else {
      ParentIsMissingToo(fs, src, dst, p);
      root := TopmostMissing(fs, src, dst, parent);
    }
  }

  lemma ParentIsMissingToo(fs: Tree, src: Path, dst: Path, p: Path)
    requires WellFormed(fs) && dst in fs && Adds(fs, src, dst, p) && p[..|p| - 1] !in fs
    ensures Adds(fs, src, dst, p[..|p| - 1])
  {
    var parent, q := p[..|p| - 1], Rebase(p, dst, src);
    assert parent[..|dst|] == p[..|dst|] == dst;
    assert |parent| == |dst| ==> parent == dst;
    assert dst < parent;
    assert Rebase(parent, dst, src) == q[..|q| - 1];
    assert q != [] && q[..|q| - 1] in fs;
    hide WellFormed, Blocked;
    if Blocked(fs, dst, parent) {
      BlockedBelow(fs, dst, p);
    }
  }

  lemma BlockedBelow(fs: Tree, dst: Path, p: Path)
    requires p != [] && Blocked(fs, dst, p[..|p| - 1])
    ensures Blocked(fs, dst, p)
  {
    var parent := p[..|p| - 1];
    var k :| |dst| < k < |parent| && parent[..k] in fs && fs[parent[..k]].File?;
    assert p[..k] == parent[..k];
  }

  /** The count is zero exactly when the disk is left as it was. */
  lemma ZeroMeansUnchanged(fs: Tree, fs': Tree, src: Path, dst: Path)
    requires WellFormed(fs) && src in fs && dst in fs && Merged(fs, fs', src, dst)
    ensures |Roots(fs, src, dst)| == 0 <==> fs' == fs
  {
    hide Blocked;
    if Roots(fs, src, dst) == {} {
      forall p
        ensures !Adds(fs, src, dst, p)
      {
        if Adds(fs, src, dst, p) {
          var root := TopmostMissing(fs, src, dst, p);
        }
      }
      assert fs' == fs;
    } else {
      var root :| root in Roots(fs, src, dst);
      assert root in fs' && root !in fs;
    }
  }

  /** A second merge finds nothing to add. */
  lemma SecondMergeAddsNothing(fs: Tree, fs': Tree, src: Path, dst: Path)
    requires Apart(src, dst) && Merged(fs, fs', src, dst)
    ensures Roots(fs', src, dst) == {}
    ensures forall fs'' :: Merged(fs', fs'', src, dst) ==> fs'' == fs'
  {
    forall p
      ensures !Adds(fs', src, dst, p)
    {
      if dst < p && p !in fs' && Rebase(p, dst, src) in fs' {
        SourceIsElsewhere(src, dst, Rebase(p, dst, src));
        assert Blocked(fs, dst, p);
        var k :| |dst| < k < |p| && p[..k] in fs && fs[p[..k]].File?;
        assert Blocked(fs', dst, p);
      }
    }
  }
}
