/** Profile garbage collection: keep the newest instances that are young enough, and the
    newest bundles of each profile. */
module RetentionGc {
  import opened Options

  datatype Name = Name(text: string)

  /** `modified`: nanoseconds from the Unix epoch, none if the metadata cannot be read. */
  datatype Meta = Meta(isDir: bool, modified: Option<int>)

  type Listing = map<Name, Meta>

  const U64_MAX := 0xFFFF_FFFF_FFFF_FFFF
  const NANOS := 1_000_000_000

  /** An unreadable time is the epoch. */
  function Modified(dir: Listing, n: Name): int
    requires n in dir
  {
    dir[n].modified.GetOr(0)
  }

  /** The age limit in nanoseconds; the product of days and seconds saturates. */
  function AgeLimit(days: nat): nat {
    (if days * 86_400 <= U64_MAX then days * 86_400 else U64_MAX) * NANOS
  }

  /** Older than the limit; a time in the future has no age. */
  predicate Old(modified: int, now: int, limit: Option<nat>) {
    limit.Some? && now > modified && now - modified > limit.value
  }

  // ---------- Sorting ----------

  predicate Distinct(names: seq<Name>) {
    forall i, j :: 0 <= i < j < |names| ==> names[i] != names[j]
  }

  predicate Within(names: seq<Name>, dir: Listing) {
    forall n :: n in names ==> n in dir
  }

  /** After the last of the names that are not newer. */
  function InsertPoint(sorted: seq<Name>, n: Name, dir: Listing): (k: nat)
    requires Within(sorted, dir) && n in dir
    ensures k <= |sorted|
    ensures k > 0 ==> Modified(dir, sorted[k - 1]) <= Modified(dir, n)
    ensures forall i :: k <= i < |sorted| ==> Modified(dir, sorted[i]) > Modified(dir, n)
  {
    if sorted == [] || Modified(dir, sorted[|sorted| - 1]) <= Modified(dir, n) then |sorted|
    else InsertPoint(sorted[..|sorted| - 1], n, dir)
  }

  function Insert(sorted: seq<Name>, n: Name, dir: Listing): seq<Name>
    requires Within(sorted, dir) && n in dir
  {
    var k := InsertPoint(sorted, n, dir);
    sorted[..k] + [n] + sorted[k..]
  }

  lemma InsertKeeps(sorted: seq<Name>, n: Name, dir: Listing)
    requires Within(sorted, dir) && n in dir
    ensures Within(Insert(sorted, n, dir), dir)
    ensures forall x :: x in Insert(sorted, n, dir) <==> x in sorted || x == n
  {
    hide InsertPoint, Modified;
    var k := InsertPoint(sorted, n, dir);
    assert sorted == sorted[..k] + sorted[k..];
    assert forall x :: x in sorted <==> x in sorted[..k] || x in sorted[k..];
  }

  lemma InsertDistinct(sorted: seq<Name>, n: Name, dir: Listing)
    requires Within(sorted, dir) && n in dir && Distinct(sorted) && n !in sorted
    ensures Distinct(Insert(sorted, n, dir))
  {
    hide InsertPoint, Modified;
    var k := InsertPoint(sorted, n, dir);
    var r := Insert(sorted, n, dir);
    assert forall i :: 0 <= i < k ==> r[i] == sorted[i];
    assert r[k] == n;
    assert forall i :: k < i < |r| ==> r[i] == sorted[i - 1];
  }

  /** A stable sort, oldest first. */
  function SortByTime(names: seq<Name>, dir: Listing): (r: seq<Name>)
    requires Within(names, dir)
    ensures Within(r, dir) && (forall x :: x in r <==> x in names) && (Distinct(names) ==> Distinct(r))
  {
    if names == [] then []
    else
      var n := |names| - 1;
      assert names == names[..n] + [names[n]];
      InsertKeeps(SortByTime(names[..n], dir), names[n], dir);
      assert Distinct(names) ==> Distinct(Insert(SortByTime(names[..n], dir), names[n], dir)) by {
        if Distinct(names) {
          InsertDistinct(SortByTime(names[..n], dir), names[n], dir);
        }
      }
      Insert(SortByTime(names[..n], dir), names[n], dir)
  }

  function Reverse(names: seq<Name>): (r: seq<Name>)
    ensures |r| == |names| && forall i :: 0 <= i < |r| ==> r[i] == names[|names| - 1 - i]
  {
    if names == [] then [] else Reverse(names[1..]) + [names[0]]
  }

  function NewestFirst(names: seq<Name>, dir: Listing): seq<Name>
    requires Within(names, dir)
  {
    Reverse(SortByTime(names, dir))
  }

  predicate Ascending(names: seq<Name>, dir: Listing)
    requires Within(names, dir)
  {
    forall i, j :: 0 <= i < j < |names| ==> Modified(dir, names[i]) <= Modified(dir, names[j])
  }

  predicate Descending(names: seq<Name>, dir: Listing)
    requires Within(names, dir)
  {
    forall i, j :: 0 <= i < j < |names| ==> Modified(dir, names[i]) >= Modified(dir, names[j])
  }

  lemma InsertAscending(sorted: seq<Name>, n: Name, dir: Listing)
    requires Within(sorted, dir) && n in dir && Ascending(sorted, dir) && Within(Insert(sorted, n, dir), dir)
    ensures Ascending(Insert(sorted, n, dir), dir)
  {
    hide Modified, InsertPoint;
    var k := InsertPoint(sorted, n, dir);
    var r := Insert(sorted, n, dir);
    forall i, j | 0 <= i < j < |r|
      ensures Modified(dir, r[i]) <= Modified(dir, r[j])
    {
      if i < k {
        assert r[i] == sorted[i] && Modified(dir, sorted[i]) <= Modified(dir, sorted[k - 1]);
      } else if k < i {
        assert r[i] == sorted[i - 1];
      }
      if k < j {
        assert r[j] == sorted[j - 1];
      } else if j < k {
        assert r[j] == sorted[j];
      }
    }
  }

  lemma {:induction false} SortAscending(names: seq<Name>, dir: Listing)
    requires Within(names, dir)
    ensures Ascending(SortByTime(names, dir), dir)
  {
    if names != [] {
      var n := |names| - 1;
      SortAscending(names[..n], dir);
      InsertKeeps(SortByTime(names[..n], dir), names[n], dir);
      InsertAscending(SortByTime(names[..n], dir), names[n], dir);
    }
  }

  lemma ReverseKeeps(names: seq<Name>)
    ensures forall x :: x in Reverse(names) <==> x in names
    ensures Distinct(names) ==> Distinct(Reverse(names))
  {
    hide Reverse;
    var r, last := Reverse(names), |names| - 1;
    forall x
      ensures x in r <==> x in names
    {
      if x in names {
        var i :| 0 <= i < |names| && names[i] == x;
        assert r[last - i] == x;
      }
    }
  }

  lemma ReverseDescends(names: seq<Name>, dir: Listing)
    requires Within(names, dir) && Ascending(names, dir) && Within(Reverse(names), dir)
    ensures Descending(Reverse(names), dir)
  {
    hide Modified, Reverse;
  }

  /** Newest first: the same names, each once, from new to old. */
  lemma NewestFirstSorts(names: seq<Name>, dir: Listing)
    requires Within(names, dir) && Distinct(names)
    ensures var r := NewestFirst(names, dir);
            && Within(r, dir) && Descending(r, dir) && Distinct(r)
            && forall x :: x in r <==> x in names
  {
    hide Distinct, Ascending, Descending, SortByTime, Reverse;
    var s := SortByTime(names, dir);
    SortAscending(names, dir);
    ReverseKeeps(s);
    ReverseDescends(s, dir);
  }

  // ---------- What is kept ----------

  /** How many of the names are within the age limit. */
  function YoungCount(names: seq<Name>, dir: Listing, now: int, limit: Option<nat>): nat
    requires Within(names, dir)
  {
    if names == [] then 0
    else
      var n := |names| - 1;
      YoungCount(names[..n], dir, now, limit) + if Old(Modified(dir, names[n]), now, limit) then 0 else 1
  }

  function Min(a: nat, b: nat): nat {
    if a < b then a else b
  }

  /** In a list sorted newest first the old ones are a suffix, so position and age together
      cut it at one place. */
  lemma {:induction false} OldIsASuffix(names: seq<Name>, dir: Listing, now: int, limit: Option<nat>)
    requires Within(names, dir) && Descending(names, dir)
    ensures YoungCount(names, dir, now, limit) <= |names|
    ensures forall i :: 0 <= i < |names| ==>
              (Old(Modified(dir, names[i]), now, limit) <==> i >= YoungCount(names, dir, now, limit))
  {
    if names != [] {
      var n := |names| - 1;
      OldIsASuffix(names[..n], dir, now, limit);
      assert forall i :: 0 <= i < n ==> names[..n][i] == names[i];
    }
  }

  /** The entries a collection is about: instance directories, or bundle files. */
  function Eligible(dir: Listing, dirs: bool): set<Name> {
    set n | n in dir && dir[n].isDir == dirs
  }

  function Young(dir: Listing, dirs: bool, now: int, limit: Option<nat>): set<Name> {
    set n | n in dir && dir[n].isDir == dirs && !Old(Modified(dir, n), now, limit)
  }

  /** The promise of a collection in which every deletion succeeds. */
  ghost predicate Retained(before: Listing, after: Listing, dirs: bool, keep: nat, now: int, limit: Option<nat>) {
    && (forall n :: n in after ==> n in before && after[n] == before[n])
    && (forall n :: n in before && before[n].isDir != dirs ==> n in after)
    && Eligible(after, dirs) <= Young(before, dirs, now, limit)
    && |Eligible(after, dirs)| == Min(keep, |Young(before, dirs, now, limit)|)
    && (forall s, r :: s in Eligible(after, dirs) && r in Eligible(before, dirs) && r !in after ==>
          Modified(before, s) >= Modified(before, r))
  }

  /** What reading a directory yields: each name once, in any order. */
  ghost predicate Lists(names: seq<Name>, dir: Listing) {
    Distinct(names) && forall n :: n in names <==> n in dir
  }

  function Filter(names: seq<Name>, dir: Listing, dirs: bool): (r: seq<Name>)
    requires Within(names, dir)
    ensures forall n :: n in r <==> n in names && dir[n].isDir == dirs
    ensures Distinct(names) ==> Distinct(r)
  {
    if names == [] then []
    else
      var n := |names| - 1;
      assert names == names[..n] + [names[n]];
      Filter(names[..n], dir, dirs) + if dir[names[n]].isDir == dirs then [names[n]] else []
  }

  function Elements(names: seq<Name>): set<Name> {
    set n | n in names
  }

  lemma {:induction false} DistinctSize(names: seq<Name>)
    requires Distinct(names)
    ensures |Elements(names)| == |names|
  {
    if names != [] {
      var n := |names| - 1;
      DistinctSize(names[..n]);
      assert names == names[..n] + [names[n]];
      assert Elements(names) == Elements(names[..n]) + {names[n]};
      assert names[n] !in names[..n];
    }
  }

  /** The sorted candidates of a directory. */
  function Candidates(names: seq<Name>, dir: Listing, dirs: bool): seq<Name>
    requires Within(names, dir)
  {
    NewestFirst(Filter(names, dir, dirs), dir)
  }

  lemma CandidatesSorted(names: seq<Name>, dir: Listing, dirs: bool)
    requires Lists(names, dir)
    ensures var r := Candidates(names, dir, dirs);
            SortedCandidates(r, dir, dirs)
  {
    NewestFirstSorts(Filter(names, dir, dirs), dir);
  }

  function Cut(sorted: seq<Name>, dir: Listing, keep: nat, now: int, limit: Option<nat>): nat
    requires Within(sorted, dir)
  {
    Min(keep, YoungCount(sorted, dir, now, limit))
  }

  predicate SortedCandidates(sorted: seq<Name>, dir: Listing, dirs: bool) {
    Within(sorted, dir) && Descending(sorted, dir) && Distinct(sorted) && Elements(sorted) == Eligible(dir, dirs)
  }

  /** The first `m` survive a cut at `m`. */
  lemma CutSurvivors(sorted: seq<Name>, before: Listing, dirs: bool, m: nat)
    requires SortedCandidates(sorted, before, dirs) && m <= |sorted|
    ensures var after := before - Elements(sorted[m..]);
            && Eligible(after, dirs) == Elements(sorted[..m]) && |Eligible(after, dirs)| == m
            && (forall n :: n in after ==> n in before && after[n] == before[n])
            && (forall n :: n in before && before[n].isDir != dirs ==> n in after)
  {
    hide Descending;
    var after := before - Elements(sorted[m..]);
    SplitElements(sorted, m);
    DistinctSize(sorted[..m]);
    assert Elements(sorted[m..]) <= Eligible(before, dirs);
    assert Eligible(after, dirs) == Elements(sorted[..m]);
  }

  lemma CutInOrder(sorted: seq<Name>, before: Listing, dirs: bool, m: nat, s: Name, r: Name)
    requires SortedCandidates(sorted, before, dirs) && m <= |sorted|
    requires s in Elements(sorted[..m]) && r in Elements(sorted[m..])
    ensures s in before && r in before && Modified(before, s) >= Modified(before, r)
  {
    hide Distinct;
    var i :| 0 <= i < m && sorted[..m][i] == s;
    var j :| 0 <= j < |sorted| - m && sorted[m..][j] == r;
    assert sorted[i] == s && sorted[m + j] == r;
  }

  lemma YoungSize(sorted: seq<Name>, dir: Listing, dirs: bool, now: int, limit: Option<nat>)
    requires SortedCandidates(sorted, dir, dirs)
    ensures var y := YoungCount(sorted, dir, now, limit);
            y <= |sorted| && Young(dir, dirs, now, limit) == Elements(sorted[..y])
                && |Young(dir, dirs, now, limit)| == y
  {
    YoungIsPrefix(sorted, dir, dirs, now, limit);
    DistinctSize(sorted[..YoungCount(sorted, dir, now, limit)]);
  }

  lemma PrefixElements(sorted: seq<Name>, m: nat, y: nat)
    requires m <= y <= |sorted|
    ensures Elements(sorted[..m]) <= Elements(sorted[..y])
  {
    assert sorted[..m] == sorted[..y][..m];
  }

  /** Cutting the sorted list there keeps the promise. */
  lemma CutRetains(sorted: seq<Name>, before: Listing, dirs: bool, keep: nat, now: int, limit: Option<nat>)
    requires SortedCandidates(sorted, before, dirs)
    ensures Cut(sorted, before, keep, now, limit) <= |sorted|
    ensures Retained(before, before - Elements(sorted[Cut(sorted, before, keep, now, limit)..]), dirs, keep, now, limit)
  {
    hide Descending, Distinct, Elements, Young, YoungCount, Eligible, Modified;
    var m := Cut(sorted, before, keep, now, limit);
    YoungSize(sorted, before, dirs, now, limit);
    PrefixElements(sorted, m, YoungCount(sorted, before, now, limit));
    CutSurvivors(sorted, before, dirs, m);
    hide SortedCandidates, Within;
    var after := before - Elements(sorted[m..]);
    forall s, r | s in Eligible(after, dirs) && r in Eligible(before, dirs) && r !in after
      ensures s in before && r in before && Modified(before, s) >= Modified(before, r)
    {
      GoneIsCut(sorted, before, dirs, m, r);
      CutInOrder(sorted, before, dirs, m, s, r);
    }
  }

  lemma GoneIsCut(sorted: seq<Name>, before: Listing, dirs: bool, m: nat, r: Name)
    requires m <= |sorted| && r in Eligible(before, dirs) && r !in before - Elements(sorted[m..])
    ensures r in Elements(sorted[m..]) && r in before
  {
  }

  lemma SplitElements(names: seq<Name>, m: nat)
    requires Distinct(names) && m <= |names|
    ensures Elements(names[..m]) !! Elements(names[m..])
              && Elements(names) == Elements(names[..m]) + Elements(names[m..])
  {
    assert names == names[..m] + names[m..];
  }

  lemma YoungIsPrefix(sorted: seq<Name>, dir: Listing, dirs: bool, now: int, limit: Option<nat>)
    requires Within(sorted, dir) && Descending(sorted, dir) && Elements(sorted) == Eligible(dir, dirs)
    ensures YoungCount(sorted, dir, now, limit) <= |sorted|
    ensures Young(dir, dirs, now, limit) == Elements(sorted[..YoungCount(sorted, dir, now, limit)])
  {
    OldIsASuffix(sorted, dir, now, limit);
    var y := YoungCount(sorted, dir, now, limit);
    forall n
      ensures n in Young(dir, dirs, now, limit) <==> n in sorted[..y]
    {
      if n in Young(dir, dirs, now, limit) {
        assert n in Elements(sorted);
        var i :| 0 <= i < |sorted| && sorted[i] == n;
        assert sorted[..y][i] == n;
      }
      if n in sorted[..y] {
        var i :| 0 <= i < y && sorted[..y][i] == n;
        assert sorted[i] == n && n in Elements(sorted);
      }
    }
  }

  // ---------- The collection ----------

  /** What a collection deletes, in order: everything after the cut. */
  function Doomed(names: seq<Name>, dir: Listing, dirs: bool, keep: nat, now: int, limit: Option<nat>): seq<Name>
    requires Lists(names, dir)
  {
    CandidatesSorted(names, dir, dirs);
    var sorted := Candidates(names, dir, dirs);
    YoungSize(sorted, dir, dirs, now, limit);
    sorted[Cut(sorted, dir, keep, now, limit)..]
  }

  /** How a collection ends: all deleted, or stopped at the first entry that cannot be. */
  predicate Collected(before: Listing, after: Listing, doomed: seq<Name>, stuck: set<Name>, removed: seq<Name>,
                      ok: bool) {
    && after == before - Elements(removed)
    && (forall n :: n in removed ==> n !in stuck)
    && if ok then removed == doomed else removed < doomed && doomed[|removed|] in stuck
  }

  /** Where the loop stands at `idx`: everything from the cut on is deleted. */
  predicate Progress(before: Listing, current: Listing, entries: seq<Name>, m: nat, idx: nat, stuck: set<Name>,
                     removed: seq<Name>) {
    && m <= |entries| && idx <= |entries|
    && removed == (if idx <= m then [] else entries[m..idx])
    && current == before - Elements(removed)
    && forall n :: n in removed ==> n !in stuck
  }

  class Directory {
    var entries: Listing

    method GcInstances(names: seq<Name>, keep: nat, days: nat, now: int, stuck: set<Name>)
      returns (removed: seq<Name>, ok: bool)
      requires Lists(names, entries)
      modifies this
      ensures Collected(old(entries), entries, Doomed(names, old(entries), true, keep, now, Some(AgeLimit(days))),
                        stuck, removed, ok)
    {
      hide Candidates, Doomed, Lists, Within, SortedCandidates, Old, Progress, Collected, Cut, AgeLimit, Modified,
          Elements;
      ghost var before := entries;
      var limit := Some(AgeLimit(days));
      DoomedIsRest(names, before, true, keep, now, limit);
      var sorted := Candidates(names, entries, true);
      ghost var m := Cut(sorted, before, keep, now, limit);
      removed := [];
      ProgressStarts(before, sorted, m, stuck);
      for idx := 0 to |sorted|
        invariant Progress(before, entries, sorted, m, idx, stuck, removed)
      {
        CutIsTheTest(sorted, before, true, keep, now, limit, idx);
        StillThere(before, entries, sorted, true, m, idx, stuck, removed);
        var path := sorted[idx];
        var tooOld := Old(Modified(entries, path), now, limit);
        if idx >= keep || tooOld {
          if path in stuck {
            ProgressStops(before, entries, sorted, m, idx, stuck, removed);
            return removed, false;
          }
          ProgressDeletes(before, entries, sorted, m, idx, stuck, removed);
          entries := entries - {path};
          removed := removed + [path];
        } else {
          ProgressSkips(before, entries, sorted, m, idx, stuck, removed);
        }
      }
      ProgressEnds(before, entries, sorted, m, stuck, removed);
      return removed, true;
    }

    method GcBundles(names: seq<Name>, keep: nat, now: int, stuck: set<Name>) returns (removed: seq<Name>, ok: bool)
      requires Lists(names, entries)
      modifies this
      ensures Collected(old(entries), entries, Doomed(names, old(entries), false, keep, now, None), stuck, removed, ok)
    {
      hide Candidates, Doomed, Lists, Within, SortedCandidates, Progress, Collected, Cut, Elements;
      ghost var before := entries;
      DoomedIsRest(names, before, false, keep, now, None);
      var sorted := Candidates(names, entries, false);
      ghost var m := Cut(sorted, before, keep, now, None);
      removed := [];
      ProgressStarts(before, sorted, m, stuck);
      for idx := 0 to |sorted|
        invariant Progress(before, entries, sorted, m, idx, stuck, removed)
      {
        PositionIsTheTest(sorted, before, false, keep, now, idx);
        var path := sorted[idx];
        if idx >= keep {
          if path in stuck {
            ProgressStops(before, entries, sorted, m, idx, stuck, removed);
            return removed, false;
          }
          ProgressDeletes(before, entries, sorted, m, idx, stuck, removed);
          entries := entries - {path};
          removed := removed + [path];
        } else {
          ProgressSkips(before, entries, sorted, m, idx, stuck, removed);
        }
      }
      ProgressEnds(before, entries, sorted, m, stuck, removed);
      return removed, true;
    }
  }

  /** The instances, and then the bundles of each profile; the first failure ends it. */
  method PerformProfileGc(instances: Directory, bundles: map<Name, Directory>,
                          instanceNames: seq<Name>, profiles: seq<Name>,
                          bundleNames: map<Name, seq<Name>>, keepInstances: nat, keepBundles: nat, days: nat, now: int,
                          stuck: set<Name>) returns (ok: bool)
    requires Lists(instanceNames, instances.entries) && Distinct(profiles)
    requires forall p :: p in bundles ==>
              bundles[p] != instances && p in bundleNames && Lists(bundleNames[p], bundles[p].entries)
    requires forall p, q :: p in bundles && q in bundles && p != q ==> bundles[p] != bundles[q]
    modifies instances, set p | p in bundles :: bundles[p]
    ensures ok ==> Retained(old(instances.entries), instances.entries, true, keepInstances, now, Some(AgeLimit(days)))
    ensures ok ==> forall p :: p in bundles && p in profiles ==>
                     Retained(old(bundles[p].entries), bundles[p].entries, false, keepBundles, now, None)
    ensures forall p :: p in bundles && p !in profiles ==> bundles[p].entries == old(bundles[p].entries)
  {
    hide Candidates, Lists, Retained, Doomed, AgeLimit, Collected;
    var removed, done := instances.GcInstances(instanceNames, keepInstances, days, now, stuck);
    if !done {
      return false;
    }
    CollectionRetains(instanceNames, old(instances.entries), instances.entries, true, keepInstances, now,
                      Some(AgeLimit(days)), stuck, removed);
    for i := 0 to |profiles|
      invariant forall p :: p in bundles && p !in profiles[..i] ==> bundles[p].entries == old(bundles[p].entries)
      invariant forall p :: p in bundles && p in profiles[..i] ==>
                  Retained(old(bundles[p].entries), bundles[p].entries, false, keepBundles, now, None)
      invariant Retained(old(instances.entries), instances.entries, true, keepInstances, now, Some(AgeLimit(days)))
    {
      var p := profiles[i];
      assert profiles[..i + 1] == profiles[..i] + [p] && p !in profiles[..i];
      if p !in bundles {
        continue;
      }
      removed, done := bundles[p].GcBundles(bundleNames[p], keepBundles, now, stuck);
      if !done {
        return false;
      }
      CollectionRetains(bundleNames[p], old(bundles[p].entries), bundles[p].entries, false, keepBundles, now, None,
                        stuck, removed);
    }
    assert profiles[..|profiles|] == profiles;
    return true;
  }

  lemma DoomedIsRest(names: seq<Name>, dir: Listing, dirs: bool, keep: nat, now: int, limit: Option<nat>)
    requires Lists(names, dir)
    ensures Within(names, dir)
    ensures var sorted := Candidates(names, dir, dirs);
            && SortedCandidates(sorted, dir, dirs) && Within(sorted, dir)
                 && Cut(sorted, dir, keep, now, limit) <= |sorted|
            && Doomed(names, dir, dirs, keep, now, limit) == sorted[Cut(sorted, dir, keep, now, limit)..]
  {
    hide Candidates, Cut;
    CandidatesSorted(names, dir, dirs);
    ghost var m := CutWithin(Candidates(names, dir, dirs), dir, dirs, keep, now, limit);
  }

  lemma CutWithin(sorted: seq<Name>, dir: Listing, dirs: bool, keep: nat, now: int, limit: Option<nat>) returns (m: nat)
    requires SortedCandidates(sorted, dir, dirs)
    ensures m == Cut(sorted, dir, keep, now, limit) <= |sorted|
  {
    YoungSize(sorted, dir, dirs, now, limit);
    m := Cut(sorted, dir, keep, now, limit);
  }

  lemma ProgressStarts(before: Listing, entries: seq<Name>, m: nat, stuck: set<Name>)
    requires m <= |entries|
    ensures Progress(before, before, entries, m, 0, stuck, [])
  {
  }

  lemma ProgressSkips(before: Listing, current: Listing, entries: seq<Name>, m: nat, idx: nat, stuck: set<Name>,
                      removed: seq<Name>)
    requires Progress(before, current, entries, m, idx, stuck, removed) && idx < m
    ensures Progress(before, current, entries, m, idx + 1, stuck, removed)
  {
  }

  lemma ProgressDeletes(before: Listing, current: Listing, entries: seq<Name>, m: nat, idx: nat, stuck: set<Name>,
                        removed: seq<Name>)
    requires Progress(before, current, entries, m, idx, stuck, removed) && m <= idx < |entries|
              && entries[idx] !in stuck
    ensures Progress(before, current - {entries[idx]}, entries, m, idx + 1, stuck, removed + [entries[idx]])
  {
    ElementsSnoc(removed, entries[idx]);
    assert before - Elements(removed + [entries[idx]]) == current - {entries[idx]};
  }

  lemma ProgressStops(before: Listing, current: Listing, entries: seq<Name>, m: nat, idx: nat, stuck: set<Name>,
                      removed: seq<Name>)
    requires Progress(before, current, entries, m, idx, stuck, removed) && m <= idx < |entries| && entries[idx] in stuck
    ensures Collected(before, current, entries[m..], stuck, removed, false)
  {
    assert entries[m..][..idx - m] == removed;
  }

  lemma ProgressEnds(before: Listing, current: Listing, entries: seq<Name>, m: nat, stuck: set<Name>,
                     removed: seq<Name>)
    requires Progress(before, current, entries, m, |entries|, stuck, removed)
    ensures Collected(before, current, entries[m..], stuck, removed, true)
  {
    assert entries[m..|entries|] == entries[m..];
  }

  lemma StillThere(before: Listing, current: Listing, entries: seq<Name>, dirs: bool, m: nat, idx: nat,
                   stuck: set<Name>, removed: seq<Name>)
    requires SortedCandidates(entries, before, dirs) && idx < |entries|
    requires Progress(before, current, entries, m, idx, stuck, removed)
    ensures entries[idx] in before && entries[idx] in current && current[entries[idx]] == before[entries[idx]]
    ensures Modified(before, entries[idx]) == Modified(current, entries[idx])
  {
    hide Descending;
  }

  /** The test of the loop, position or age, is the cut. */
  lemma CutIsTheTest(sorted: seq<Name>, dir: Listing, dirs: bool, keep: nat, now: int, limit: Option<nat>, idx: nat)
    requires SortedCandidates(sorted, dir, dirs) && idx < |sorted|
    ensures (idx >= keep || Old(Modified(dir, sorted[idx]), now, limit)) <==> idx >= Cut(sorted, dir, keep, now, limit)
  {
    OldIsASuffix(sorted, dir, now, limit);
  }

  /** Without an age limit it is position alone. */
  lemma PositionIsTheTest(sorted: seq<Name>, dir: Listing, dirs: bool, keep: nat, now: int, idx: nat)
    requires SortedCandidates(sorted, dir, dirs) && idx < |sorted|
    ensures idx >= keep <==> idx >= Cut(sorted, dir, keep, now, None)
  {
    CutIsTheTest(sorted, dir, dirs, keep, now, None, idx);
  }

  lemma ElementsSnoc(names: seq<Name>, n: Name)
    ensures Elements(names + [n]) == Elements(names) + {n}
  {
  }

  // ---------- What a collection guarantees ----------

  /** With every deletion successful, exactly min(keep, the young ones) survive, all of them
      young and none older than anything removed; what is not eligible is untouched. */
  lemma CollectionRetains(names: seq<Name>, before: Listing, after: Listing, dirs: bool, keep: nat, now: int,
                          limit: Option<nat>, stuck: set<Name>, removed: seq<Name>)
    requires Lists(names, before)
    requires Collected(before, after, Doomed(names, before, dirs, keep, now, limit), stuck, removed, true)
    ensures Retained(before, after, dirs, keep, now, limit)
  {
    hide Candidates, Retained, Cut, SortedCandidates;
    CandidatesSorted(names, before, dirs);
    CutRetains(Candidates(names, before, dirs), before, dirs, keep, now, limit);
  }

  /** A second collection at the same instant deletes nothing, in whatever order the
      directory is read. */
  lemma SecondCollectionDeletesNothing(before: Listing, after: Listing, again: seq<Name>, dirs: bool, keep: nat,
                                       now: int, limit: Option<nat>)
    requires Retained(before, after, dirs, keep, now, limit) && Lists(again, after)
    ensures Doomed(again, after, dirs, keep, now, limit) == []
  {
    hide Candidates, YoungCount;
    var sorted := Candidates(again, after, dirs);
    CandidatesSorted(again, after, dirs);
    YoungSize(sorted, after, dirs, now, limit);
    assert Young(after, dirs, now, limit) == Eligible(after, dirs) by {
      SurvivorsStayYoung(before, after, dirs, keep, now, limit);
    }
    DistinctSize(sorted);
  }

  lemma SurvivorsStayYoung(before: Listing, after: Listing, dirs: bool, keep: nat, now: int, limit: Option<nat>)
    requires Retained(before, after, dirs, keep, now, limit)
    ensures Young(after, dirs, now, limit) == Eligible(after, dirs)
  {
    forall n | n in Eligible(after, dirs)
      ensures n in Young(after, dirs, now, limit)
    {
      assert n in Young(before, dirs, now, limit);
    }
  }

  /** A collection that stopped half way and is run again keeps what one undisturbed
      collection would have promised. */
  lemma RetryCompletes(names: seq<Name>, before: Listing, mid: Listing, after: Listing, dirs: bool, keep: nat, now: int,
                       limit: Option<nat>, stuck: set<Name>, removed: seq<Name>)
    requires Lists(names, before)
    requires Collected(before, mid, Doomed(names, before, dirs, keep, now, limit), stuck, removed, false)
    requires Retained(mid, after, dirs, keep, now, limit)
    ensures Retained(before, after, dirs, keep, now, limit)
  {
    hide Candidates, Doomed, Lists, Old;
    var doomed := Doomed(names, before, dirs, keep, now, limit);
    var ideal := before - Elements(doomed);
    assert Retained(before, ideal, dirs, keep, now, limit) by {
      var none: set<Name> := {};
      CollectionRetains(names, before, ideal, dirs, keep, now, limit, none, doomed);
    }
    assert Elements(removed) <= Elements(doomed);
    DoomedIsEligible(names, before, dirs, keep, now, limit);
    SameCount(before, ideal, mid, after, dirs, keep, now, limit);
    forall s, r | s in Eligible(after, dirs) && r in Eligible(before, dirs) && r !in after
      ensures Modified(before, s) >= Modified(before, r)
    {
      if r !in mid && s !in ideal {
        var t := Exchanged(Eligible(after, dirs), Eligible(ideal, dirs), s);
        assert t in Eligible(mid, dirs) && Modified(mid, s) >= Modified(mid, t);
        assert Modified(before, t) >= Modified(before, r);
      }
    }
  }

  lemma DoomedIsEligible(names: seq<Name>, dir: Listing, dirs: bool, keep: nat, now: int, limit: Option<nat>)
    requires Lists(names, dir)
    ensures Elements(Doomed(names, dir, dirs, keep, now, limit)) <= Eligible(dir, dirs)
  {
    hide Candidates;
    CandidatesSorted(names, dir, dirs);
    var sorted := Candidates(names, dir, dirs);
    YoungSize(sorted, dir, dirs, now, limit);
    SplitElements(sorted, Cut(sorted, dir, keep, now, limit));
  }

  lemma SameCount(before: Listing, ideal: Listing, mid: Listing, after: Listing, dirs: bool, keep: nat, now: int,
                  limit: Option<nat>)
    requires Retained(before, ideal, dirs, keep, now, limit) && Retained(mid, after, dirs, keep, now, limit)
    requires forall n :: n in ideal ==> n in mid
    requires forall n :: n in mid ==> n in before && mid[n] == before[n]
    ensures |Eligible(after, dirs)| == |Eligible(ideal, dirs)| == Min(keep, |Young(before, dirs, now, limit)|)
    ensures Young(mid, dirs, now, limit) <= Young(before, dirs, now, limit)
  {
    hide Old;
    SubsetSize(Eligible(ideal, dirs), Young(mid, dirs, now, limit));
    SubsetSize(Young(mid, dirs, now, limit), Young(before, dirs, now, limit));
  }

  lemma {:induction false} SubsetSize(a: set<Name>, b: set<Name>)
    requires a <= b
    ensures |a| <= |b|
  {
    if a != {} {
      var x :| x in a;
      SubsetSize(a - {x}, b - {x});
    }
  }

  /** Of two sets of the same size, each has an element the other lacks, or they are equal. */
  lemma Exchanged(a: set<Name>, b: set<Name>, s: Name) returns (t: Name)
    requires |a| == |b| && s in a && s !in b
    ensures t in b && t !in a
  {
    if b <= a {
      SubsetSize(b, a - {s});
      assert false;
    }
    t :| t in b && t !in a;
  }

  // ---------- Days ----------

  /** An entry is too old exactly when it is more than so many days of 86,400 seconds old; a
      limit beyond the seconds of 64 bits counts as those. */
  lemma OldMeansDays(modified: int, now: int, days: nat)
    ensures Old(modified, now, Some(AgeLimit(days)))
            <==> now - modified > days * 86_400 * 1_000_000_000
                 || now - modified > 18_446_744_073_709_551_615 * 1_000_000_000
  {
  }

  /** With no more entries than are kept, a collection removes exactly those older than the
      days given; no entry is removed for its age before. */
  lemma AgeDecidesAlone(before: Listing, after: Listing, dirs: bool, keep: nat, now: int, days: nat, n: Name)
    requires Retained(before, after, dirs, keep, now, Some(AgeLimit(days))) && |Eligible(before, dirs)| <= keep
    requires n in Eligible(before, dirs) && days * 86_400 <= 18_446_744_073_709_551_615
    ensures n in after <==> now - before[n].modified.GetOr(0) <= days * 86_400 * 1_000_000_000
  {
    OldMeansDays(Modified(before, n), now, days);
    hide Old, AgeLimit;
    var limit := Some(AgeLimit(days));
    var young, kept := Young(before, dirs, now, limit), Eligible(after, dirs);
    SubsetSize(young, Eligible(before, dirs));
    SubsetOfSameSize(kept, young);
    assert n in kept <==> n in after;
  }

  lemma SubsetOfSameSize(a: set<Name>, b: set<Name>)
    requires a <= b && |a| == |b|
    ensures a == b
  {
    assert b == a + (b - a) && |b| == |a| + |b - a|;
  }
}
