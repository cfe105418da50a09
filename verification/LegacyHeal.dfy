/** Healing the legacy on-disk paths at every start of the command line, on a file system
    whose operations may each fail. */
module LegacyHeal {
  import opened Options

  // ---------- File system ----------

  datatype Dir = Home | ConfigDir | StateDir | OldSessions | Sessions

  datatype Name = ContextsYaml | ConfigJson | SessionJson | Other(text: string)

  datatype Path = Path(dir: Dir, name: Name)

  datatype Item = File(data: seq<nat>) | Folder(tree: string)

  datatype FileSystem = FileSystem(items: map<Path, Item>, dirs: set<Dir>)

  function At(fs: FileSystem, p: Path): Option<Item> {
    if p in fs.items then Some(fs.items[p]) else None
  }

  predicate Legacy(p: Path) {
    p.dir == OldSessions || (p.dir == Home && !p.name.Other?)
  }

  predicate Canonical(p: Path) {
    p.dir in {ConfigDir, StateDir, Sessions}
  }

  /** Where a legacy path belongs. */
  function Dest(p: Path): (d: Path)
    requires Legacy(p)
    ensures Canonical(d) && !Legacy(d)
  {
    if p.dir == OldSessions then Path(Sessions, p.name)
    else if p.name == SessionJson then Path(StateDir, p.name)
    else Path(ConfigDir, p.name)
  }

  // ---------- One move ----------

  /** What the operations of a move do: each may fail, and a copy writes some prefixes of the
      file before it completes or gives up. */
  datatype Faults = Faults(creates: bool, renames: bool, progress: seq<nat>, copies: bool, removes: bool)

  function Prefix(data: seq<nat>, n: nat): seq<nat> {
    if n <= |data| then data[..n] else data
  }

  function Put(fs: FileSystem, p: Path, item: Item): FileSystem {
    fs.(items := fs.items[p := item])
  }

  function Moved(fs: FileSystem, src: Path): FileSystem
    requires Legacy(src) && src in fs.items
  {
    fs.(items := (fs.items - {src})[Dest(src) := fs.items[src]])
  }

  /** The truncated files a copy goes through. */
  function PartialStates(b: FileSystem, dst: Path, data: seq<nat>, progress: seq<nat>): seq<FileSystem> {
    seq(|progress|, i requires 0 <= i < |progress| => Put(b, dst, File(Prefix(data, progress[i]))))
  }

  function CopyStates(b: FileSystem, src: Path, f: Faults): seq<FileSystem>
    requires Legacy(src) && src in b.items
  {
    var item := b.items[src];
    if item.Folder? then []
    else
      PartialStates(b, Dest(src), item.data, f.progress)
      + (if !f.copies then [] else [Put(b, Dest(src), item)] + if f.removes then [Moved(b, src)] else [])
  }

  /** The states a move goes through after `a`. */
  function MoveStates(a: FileSystem, src: Path, f: Faults): seq<FileSystem>
    requires Legacy(src)
  {
    if src !in a.items || Dest(src) in a.items || !f.creates then []
    else
      var b := a.(dirs := a.dirs + {Dest(src).dir});
      [b] + if f.renames then [Moved(b, src)] else CopyStates(b, src, f)
  }

  function Then(a: FileSystem, states: seq<FileSystem>): FileSystem {
    if states == [] then a else states[|states| - 1]
  }

  // ---------- The whole heal ----------

  datatype EntryMove = EntryMove(name: Name, faults: Faults)

  /** `entries`: what reading the legacy sessions directory yields, if it can be read. */
  datatype Plan = Plan(
    contexts: Faults, config: Faults, session: Faults,
    createsSessions: bool, entries: Option<seq<EntryMove>>, removesDir: bool)

  function EntryStates(b: FileSystem, moves: seq<EntryMove>): seq<FileSystem> {
    if moves == [] then []
    else
      var n := |moves| - 1;
      var before := EntryStates(b, moves[..n]);
      before + MoveStates(Then(b, before), Path(OldSessions, moves[n].name), moves[n].faults)
  }

  predicate OldSessionsEmpty(fs: FileSystem) {
    forall p :: p in fs.items ==> p.dir != OldSessions
  }

  function RemoveDirStates(c: FileSystem, removes: bool): seq<FileSystem> {
    if removes && OldSessionsEmpty(c) then [c.(dirs := c.dirs - {OldSessions})] else []
  }

  function MergeStates(a: FileSystem, plan: Plan): seq<FileSystem> {
    if OldSessions !in a.dirs || !plan.createsSessions then []
    else
      var b := a.(dirs := a.dirs + {Sessions});
      if plan.entries.None? then [b]
      else
        var moved := EntryStates(b, plan.entries.value);
        [b] + moved + RemoveDirStates(Then(b, moved), plan.removesDir)
  }

  const CONTEXTS := Path(Home, ContextsYaml)
  const CONFIG := Path(Home, ConfigJson)
  const SESSION := Path(Home, SessionJson)

  function HealStates(a: FileSystem, plan: Plan): seq<FileSystem> {
    var s1 := MoveStates(a, CONTEXTS, plan.contexts);
    var s2 := MoveStates(Then(a, s1), CONFIG, plan.config);
    var s3 := MoveStates(Then(a, s1 + s2), SESSION, plan.session);
    s1 + s2 + s3 + MergeStates(Then(a, s1 + s2 + s3), plan)
  }

  lemma PutOver(m: map<Path, Item>, n: map<Path, Item>, p: Path, v: Item)
    requires m - {p} == n - {p}
    ensures m[p := v] == n[p := v] && m[p := v] - {p} == n - {p}
  {
    assert forall q :: q != p && q in m ==> q in m - {p} && (m - {p})[q] == m[q];
    assert forall q :: q != p && q in n ==> q in n - {p} && (n - {p})[q] == n[q];
  }

  lemma RemoveAfterPut(b: FileSystem, src: Path)
    requires Legacy(src) && src in b.items
    ensures b.items[Dest(src) := b.items[src]] - {src} == Moved(b, src).items
  {
  }

  /** The disk, changed one operation at a time. */
  class Disk {
    var items: map<Path, Item>
    var dirs: set<Dir>
    ghost var history: seq<FileSystem>

    ghost function Contents(): FileSystem
      reads this
    {
      FileSystem(items, dirs)
    }

    method MoveIfDestAbsent(src: Path, f: Faults)
      requires Legacy(src)
      modifies this
      ensures history == old(history) + MoveStates(old(Contents()), src, f)
      ensures Contents() == Then(old(Contents()), MoveStates(old(Contents()), src, f))
    {
      var dst := Dest(src);
      if src !in items || dst in items || !f.creates {
        return;
      }
      dirs := dirs + {dst.dir};
      history := history + [Contents()];
      if f.renames {
        items := (items - {src})[dst := items[src]];
        history := history + [Contents()];
        return;
      }
      CopyThenRemove(src, f);
    }

    method WritePrefixes(dst: Path, data: seq<nat>, progress: seq<nat>)
      modifies `items, `history
      ensures history == old(history) + PartialStates(old(Contents()), dst, data, progress)
      ensures Contents() == Then(old(Contents()), PartialStates(old(Contents()), dst, data, progress))
      ensures items - {dst} == old(items) - {dst}
    {
      ghost var states := PartialStates(Contents(), dst, data, progress);
      for i := 0 to |progress|
        invariant Contents() == Then(old(Contents()), states[..i]) && history == old(history) + states[..i]
        invariant items - {dst} == old(items) - {dst}
      {
        PutOver(items, old(items), dst, File(Prefix(data, progress[i])));
        items := items[dst := File(Prefix(data, progress[i]))];
        history := history + [Contents()];
        assert states[..i + 1] == states[..i] + [states[i]];
      }
      assert states[..|progress|] == states;
    }

    method CopyThenRemove(src: Path, f: Faults)
      requires Legacy(src) && src in items
      modifies this
      ensures history == old(history) + CopyStates(old(Contents()), src, f)
      ensures Contents() == Then(old(Contents()), CopyStates(old(Contents()), src, f))
    {
      hide PartialStates, Prefix;
      var item := items[src];
      if item.Folder? {
        return;
      }
      ghost var b := Contents();
      WritePrefixes(Dest(src), item.data, f.progress);
      if !f.copies {
        return;
      }
      PutOver(items, b.items, Dest(src), item);
      items := items[Dest(src) := item];
      history := history + [Contents()];
      if f.removes {
        RemoveAfterPut(b, src);
        items := items - {src};
        history := history + [Contents()];
      }
    }

    method MoveEntries(moves: seq<EntryMove>)
      modifies this
      ensures history == old(history) + EntryStates(old(Contents()), moves)
      ensures Contents() == Then(old(Contents()), EntryStates(old(Contents()), moves))
    {
      hide MoveStates;
      for i := 0 to |moves|
        invariant history == old(history) + EntryStates(old(Contents()), moves[..i])
        invariant Contents() == Then(old(Contents()), EntryStates(old(Contents()), moves[..i]))
      {
        assert moves[..i + 1][..i] == moves[..i];
        MoveIfDestAbsent(Path(OldSessions, moves[i].name), moves[i].faults);
      }
      assert moves[..|moves|] == moves;
    }

    method MergeDirInto(plan: Plan)
      modifies this
      ensures history == old(history) + MergeStates(old(Contents()), plan)
      ensures Contents() == Then(old(Contents()), MergeStates(old(Contents()), plan))
    {
      hide EntryStates;
      if OldSessions !in dirs || !plan.createsSessions {
        return;
      }
      dirs := dirs + {Sessions};
      history := history + [Contents()];
      if plan.entries.None? {
        return;
      }
      MoveEntries(plan.entries.value);
      if plan.removesDir && forall p :: p in items ==> p.dir != OldSessions {
        dirs := dirs - {OldSessions};
        history := history + [Contents()];
      }
    }

    method HealLegacyCliPaths(plan: Plan)
      modifies this
      ensures history == old(history) + HealStates(old(Contents()), plan)
      ensures Contents() == Then(old(Contents()), HealStates(old(Contents()), plan))
    {
      hide MoveStates, MergeStates;
      MoveIfDestAbsent(CONTEXTS, plan.contexts);
      MoveIfDestAbsent(CONFIG, plan.config);
      MoveIfDestAbsent(SESSION, plan.session);
      MergeDirInto(plan);
    }
  }

  // ---------- Safety at every step ----------

  /** What `b` keeps of `a` at a path: canonical items are untouched, a legacy item is still
      there or stands, whole, at a destination that was free, and nothing else changes. */
  predicate SafeAt(a: FileSystem, b: FileSystem, p: Path) {
    && (Canonical(p) && At(a, p).Some? ==> At(b, p) == At(a, p))
    && (Legacy(p) && At(a, p).Some? ==>
          At(b, p) == At(a, p) || (At(a, Dest(p)).None? && At(b, p).None? && At(b, Dest(p)) == At(a, p)))
    && (Legacy(p) && At(a, p).None? ==> At(b, p).None?)
    && (!Canonical(p) && !Legacy(p) ==> At(b, p) == At(a, p))
  }

  ghost predicate Safe(a: FileSystem, b: FileSystem) {
    forall p :: SafeAt(a, b, p)
  }

  ghost predicate AllSafe(a: FileSystem, states: seq<FileSystem>) {
    forall i :: 0 <= i < |states| ==> Safe(a, states[i])
  }

  lemma SafeIsTransitive(a: FileSystem, b: FileSystem, c: FileSystem)
    requires Safe(a, b) && Safe(b, c)
    ensures Safe(a, c)
  {
    forall p
      ensures SafeAt(a, c, p)
    {
      assert SafeAt(a, b, p) && SafeAt(b, c, p);
      if Legacy(p) {
        assert SafeAt(a, b, Dest(p)) && SafeAt(b, c, Dest(p));
      }
    }
  }

  lemma PutIsSafe(a: FileSystem, src: Path)
    requires Legacy(src) && src in a.items && Dest(src) !in a.items
    ensures forall item :: Safe(a, Put(a, Dest(src), item))
    ensures Safe(a, Moved(a, src))
  {
    forall item, p
      ensures SafeAt(a, Put(a, Dest(src), item), p) && SafeAt(a, Moved(a, src), p)
    {
    }
  }

  lemma MoveIsSafe(a: FileSystem, src: Path, f: Faults)
    requires Legacy(src)
    ensures AllSafe(a, MoveStates(a, src, f))
  {
    hide Safe;
    var states := MoveStates(a, src, f);
    if states != [] {
      var b := a.(dirs := a.dirs + {Dest(src).dir});
      assert Safe(a, b) by { SameItems(a, b); }
      forall i | 1 <= i < |states|
        ensures Safe(a, states[i])
      {
        PutIsSafe(b, src);
        assert Safe(b, states[i]);
        SafeIsTransitive(a, b, states[i]);
      }
    }
  }

  lemma SameItems(a: FileSystem, b: FileSystem)
    requires a.items == b.items
    ensures Safe(a, b)
  {
  }

  /** Safe steps after a safe point are safe. */
  lemma Chain(a: FileSystem, first: seq<FileSystem>, second: seq<FileSystem>)
    requires AllSafe(a, first) && AllSafe(Then(a, first), second)
    ensures AllSafe(a, first + second)
    ensures Then(a, first + second) == Then(Then(a, first), second)
  {
    hide Safe;
    var m := Then(a, first);
    assert Safe(a, m) by { SameItems(a, a); }
    forall i | 0 <= i < |first + second|
      ensures Safe(a, (first + second)[i])
    {
      if i >= |first| {
        SafeIsTransitive(a, m, second[i - |first|]);
      }
    }
  }

  lemma {:induction false} EntriesAreSafe(b: FileSystem, moves: seq<EntryMove>)
    ensures AllSafe(b, EntryStates(b, moves))
  {
    hide AllSafe, MoveStates;
    if moves == [] {
      assert AllSafe(b, []) by { NoStates(b); }
    } else {
      var n := |moves| - 1;
      EntriesAreSafe(b, moves[..n]);
      var before := EntryStates(b, moves[..n]);
      MoveIsSafe(Then(b, before), Path(OldSessions, moves[n].name), moves[n].faults);
      Chain(b, before, MoveStates(Then(b, before), Path(OldSessions, moves[n].name), moves[n].faults));
    }
  }

  lemma NoStates(a: FileSystem)
    ensures AllSafe(a, [])
  {
  }

  lemma DirsOnly(a: FileSystem, b: FileSystem)
    requires a.items == b.items
    ensures AllSafe(a, [b])
  {
    SameItems(a, b);
  }

  lemma MergeIsSafe(a: FileSystem, plan: Plan)
    ensures AllSafe(a, MergeStates(a, plan))
  {
    hide AllSafe, EntryStates, OldSessionsEmpty;
    var b := a.(dirs := a.dirs + {Sessions});
    NoStates(a);
    DirsOnly(a, b);
    if plan.entries.Some? {
      var moved := EntryStates(b, plan.entries.value);
      EntriesAreSafe(b, plan.entries.value);
      Chain(a, [b], moved);
      var c := Then(b, moved);
      NoStates(c);
      DirsOnly(c, c.(dirs := c.dirs - {OldSessions}));
      Chain(a, [b] + moved, RemoveDirStates(c, plan.removesDir));
    }
  }

  /** At every step of a heal, whatever fails, nothing canonical is overwritten and every
      legacy item still exists whole. */
  lemma HealIsSafe(a: FileSystem, plan: Plan)
    ensures AllSafe(a, HealStates(a, plan))
  {
    hide AllSafe, MoveStates, MergeStates, Then;
    var s1 := MoveStates(a, CONTEXTS, plan.contexts);
    MoveIsSafe(a, CONTEXTS, plan.contexts);
    var s2 := MoveStates(Then(a, s1), CONFIG, plan.config);
    MoveIsSafe(Then(a, s1), CONFIG, plan.config);
    Chain(a, s1, s2);
    var s3 := MoveStates(Then(a, s1 + s2), SESSION, plan.session);
    MoveIsSafe(Then(a, s1 + s2), SESSION, plan.session);
    Chain(a, s1 + s2, s3);
    MergeIsSafe(Then(a, s1 + s2 + s3), plan);
    Chain(a, s1 + s2 + s3, MergeStates(Then(a, s1 + s2 + s3), plan));
  }

  /** Any number of heals, one at each start. */
  function Heals(a: FileSystem, plans: seq<Plan>): FileSystem {
    if plans == [] then a
    else
      var b := Heals(a, plans[..|plans| - 1]);
      Then(b, HealStates(b, plans[|plans| - 1]))
  }

  /** Every state those heals go through. */
  function HealsStates(a: FileSystem, plans: seq<Plan>): seq<FileSystem> {
    if plans == [] then []
    else HealsStates(a, plans[..|plans| - 1]) + HealStates(Heals(a, plans[..|plans| - 1]), plans[|plans| - 1])
  }

  /** The same at every step of any number of heals. */
  lemma {:induction false} ManyHealsAreSafe(a: FileSystem, plans: seq<Plan>)
    ensures AllSafe(a, HealsStates(a, plans)) && Safe(a, Heals(a, plans))
    ensures Then(a, HealsStates(a, plans)) == Heals(a, plans)
  {
    hide Safe, AllSafe, HealStates;
    if plans == [] {
      SameItems(a, a);
      NoStates(a);
    } else {
      var n := |plans| - 1;
      var b := Heals(a, plans[..n]);
      ManyHealsAreSafe(a, plans[..n]);
      HealIsSafe(b, plans[n]);
      Chain(a, HealsStates(a, plans[..n]), HealStates(b, plans[n]));
      ThenIsSafe(a, HealsStates(a, plans));
    }
  }

  // ---------- Completeness ----------

  predicate WellFormed(fs: FileSystem) {
    forall p :: p in fs.items ==> p.dir in fs.dirs
  }

  /** A legacy path with nothing left to do. */
  predicate Done(fs: FileSystem, p: Path)
    requires Legacy(p)
  {
    p in fs.items ==> Dest(p) in fs.items
  }

  /** Nothing left to do at all. */
  ghost predicate Settled(fs: FileSystem) {
    && (forall p :: Legacy(p) ==> Done(fs, p))
    && (OldSessions in fs.dirs ==> Sessions in fs.dirs && !OldSessionsEmpty(fs))
  }

  /** The operations this move needs succeed; a folder cannot be copied. */
  predicate Succeeds(a: FileSystem, src: Path, f: Faults) {
    f.creates && (f.renames || (f.copies && f.removes && (src in a.items ==> a.items[src].File?)))
  }

  ghost predicate AllSucceed(a: FileSystem, plan: Plan) {
    && Succeeds(a, CONTEXTS, plan.contexts) && Succeeds(a, CONFIG, plan.config) && Succeeds(a, SESSION, plan.session)
    && plan.createsSessions && plan.removesDir && plan.entries.Some?
    && EntriesSucceed(a, plan.entries.value)
    && (forall p :: p in a.items && p.dir == OldSessions ==> Listed(plan.entries.value, p.name))
  }

  predicate EntriesSucceed(a: FileSystem, moves: seq<EntryMove>) {
    forall i :: 0 <= i < |moves| ==> Succeeds(a, Path(OldSessions, moves[i].name), moves[i].faults)
  }

  predicate Listed(moves: seq<EntryMove>, name: Name) {
    exists i :: 0 <= i < |moves| && moves[i].name == name
  }

  /** Safe, and no destination is filled while its legacy item is still there. */
  ghost predicate Clean(a: FileSystem, b: FileSystem) {
    Safe(a, b) && forall p :: Legacy(p) && p in b.items ==> At(b, Dest(p)) == At(a, Dest(p))
  }

  lemma CleanIsTransitive(a: FileSystem, b: FileSystem, c: FileSystem)
    requires Clean(a, b) && Clean(b, c)
    ensures Clean(a, c)
  {
    SafeIsTransitive(a, b, c);
    forall p | Legacy(p) && p in c.items
      ensures At(c, Dest(p)) == At(a, Dest(p))
    {
      assert SafeAt(b, c, p);
    }
  }

  lemma SameItemsClean(a: FileSystem, b: FileSystem)
    requires a.items == b.items
    ensures Clean(a, b)
  {
    SameItems(a, b);
  }

  lemma CleanKeepsDone(a: FileSystem, b: FileSystem, p: Path)
    requires Clean(a, b) && Legacy(p) && Done(a, p)
    ensures Done(b, p)
  {
    assert SafeAt(a, b, p) && SafeAt(a, b, Dest(p));
  }

  lemma CleanKeepsSuccess(a: FileSystem, b: FileSystem, p: Path, f: Faults)
    requires Clean(a, b) && Legacy(p) && Succeeds(a, p, f)
    ensures Succeeds(b, p, f)
  {
    assert SafeAt(a, b, p);
  }

  lemma ThenIsSafe(a: FileSystem, states: seq<FileSystem>)
    requires AllSafe(a, states)
    ensures Safe(a, Then(a, states))
  {
    SameItems(a, a);
  }

  lemma MoveIsDone(a: FileSystem, src: Path, f: Faults)
    requires Legacy(src) && Succeeds(a, src, f)
    ensures var t := Then(a, MoveStates(a, src, f)); Clean(a, t) && Done(t, src) && a.dirs <= t.dirs
                                                     && (OldSessions in t.dirs <==> OldSessions in a.dirs)
  {
    hide Safe;
    MoveIsSafe(a, src, f);
    ThenIsSafe(a, MoveStates(a, src, f));
  }

  /** One more entry of the legacy sessions. */
  lemma {:induction false} EntriesAreClean(a: FileSystem, b: FileSystem, moves: seq<EntryMove>)
    requires Clean(a, b) && EntriesSucceed(a, moves) && Sessions in b.dirs
    ensures var c := Then(b, EntryStates(b, moves));
            Clean(b, c) && b.dirs <= c.dirs && (OldSessions in c.dirs <==> OldSessions in b.dirs)
            && forall i :: 0 <= i < |moves| ==> Done(c, Path(OldSessions, moves[i].name))
  {
    hide Clean, MoveStates, Succeeds, Done;
    if moves == [] {
      SameItemsClean(b, b);
    } else {
      var n := |moves| - 1;
      var before := EntryStates(b, moves[..n]);
      var c := Then(b, before);
      assert forall i :: 0 <= i < n ==> moves[..n][i] == moves[i];
      EntriesAreClean(a, b, moves[..n]);
      CleanIsTransitive(a, b, c);
      var src := Path(OldSessions, moves[n].name);
      CleanKeepsSuccess(a, c, src, moves[n].faults);
      MoveIsDone(c, src, moves[n].faults);
      var last := MoveStates(c, src, moves[n].faults);
      var d := Then(c, last);
      assert Then(b, before + last) == d;
      CleanIsTransitive(b, c, d);
      forall i | 0 <= i < |moves|
        ensures Done(d, Path(OldSessions, moves[i].name))
      {
        if i < n {
          assert Done(c, Path(OldSessions, moves[..n][i].name));
          CleanKeepsDone(c, d, Path(OldSessions, moves[i].name));
        }
      }
    }
  }

  lemma MergeSettles(a: FileSystem, b: FileSystem, plan: Plan)
    requires AllSucceed(a, plan) && WellFormed(a) && Clean(a, b) && (OldSessions in a.dirs <==> OldSessions in b.dirs)
    ensures var t := Then(b, MergeStates(b, plan));
            && Clean(b, t)
            && (forall name :: Done(t, Path(OldSessions, name)))
            && (OldSessions in t.dirs ==> Sessions in t.dirs && !OldSessionsEmpty(t))
  {
    hide Clean, EntryStates, Succeeds, OldSessionsEmpty, Done, EntriesSucceed;
    var t := Then(b, MergeStates(b, plan));
    if OldSessions !in b.dirs {
      SameItemsClean(b, b);
      forall name
        ensures Done(t, Path(OldSessions, name))
      {
        assert Path(OldSessions, name) !in a.items;
        NothingStaysDone(a, t, Path(OldSessions, name));
      }
    } else {
      var c := b.(dirs := b.dirs + {Sessions});
      SameItemsClean(b, c);
      CleanIsTransitive(a, b, c);
      var moves := plan.entries.value;
      EntriesAreClean(a, c, moves);
      var d := Then(c, EntryStates(c, moves));
      MergedState(b, plan);
      SameItemsClean(d, t);
      CleanIsTransitive(b, c, d);
      CleanIsTransitive(b, d, t);
      CleanIsTransitive(a, b, t);
      SettledSameItems(d, t);
      forall name
        ensures Done(t, Path(OldSessions, name))
      {
        var p := Path(OldSessions, name);
        if p in a.items {
          assert Listed(moves, p.name);
          CleanKeepsDone(d, t, p);
        } else {
          NothingStaysDone(a, t, p);
        }
      }
    }
  }

  lemma NothingStaysDone(a: FileSystem, t: FileSystem, p: Path)
    requires Clean(a, t) && Legacy(p) && p !in a.items
    ensures Done(t, p)
  {
    assert SafeAt(a, t, p);
  }

  /** Where a merge ends: after the moves, with the legacy directory gone if it is empty. */
  lemma MergedState(b: FileSystem, plan: Plan)
    requires OldSessions in b.dirs && plan.createsSessions && plan.entries.Some? && plan.removesDir
    ensures var c := b.(dirs := b.dirs + {Sessions});
            var d := Then(c, EntryStates(c, plan.entries.value));
            var t := Then(b, MergeStates(b, plan));
            t == if OldSessionsEmpty(d) then d.(dirs := d.dirs - {OldSessions}) else d
  {
    hide EntryStates, OldSessionsEmpty;
  }

  lemma SettledSameItems(d: FileSystem, t: FileSystem)
    requires d.items == t.items
    ensures OldSessionsEmpty(d) == OldSessionsEmpty(t)
  {
  }

  /** When every operation succeeds, a heal leaves nothing for the next one. */
  lemma HealSettles(a: FileSystem, plan: Plan)
    requires AllSucceed(a, plan) && WellFormed(a)
    ensures Settled(Then(a, HealStates(a, plan))) && Clean(a, Then(a, HealStates(a, plan)))
  {
    hide Clean, MoveStates, MergeStates, Succeeds, OldSessionsEmpty, Done, EntriesSucceed, Listed, WellFormed;
    var s1 := MoveStates(a, CONTEXTS, plan.contexts);
    var b1 := Then(a, s1);
    MoveIsDone(a, CONTEXTS, plan.contexts);
    CleanKeepsSuccess(a, b1, CONFIG, plan.config);
    var s2 := MoveStates(b1, CONFIG, plan.config);
    var b2 := Then(b1, s2);
    MoveIsDone(b1, CONFIG, plan.config);
    CleanIsTransitive(a, b1, b2);
    CleanKeepsSuccess(a, b2, SESSION, plan.session);
    assert Then(a, s1 + s2) == b2;
    var s3 := MoveStates(b2, SESSION, plan.session);
    var b3 := Then(b2, s3);
    MoveIsDone(b2, SESSION, plan.session);
    CleanIsTransitive(a, b2, b3);
    CleanIsTransitive(b1, b2, b3);
    assert Then(a, s1 + s2 + s3) == b3;
    MergeSettles(a, b3, plan);
    var t := Then(b3, MergeStates(b3, plan));
    assert Then(a, HealStates(a, plan)) == t;
    CleanIsTransitive(a, b3, t);
    CleanIsTransitive(b1, b3, t);
    CleanIsTransitive(b2, b3, t);
    CleanKeepsDone(b1, t, CONTEXTS);
    CleanKeepsDone(b2, t, CONFIG);
    CleanKeepsDone(b3, t, SESSION);
    forall p | Legacy(p)
      ensures Done(t, p)
    {
      assert p == CONTEXTS || p == CONFIG || p == SESSION || p == Path(OldSessions, p.name);
    }
  }

  lemma DoneMovesNothing(a: FileSystem, src: Path, f: Faults)
    requires Legacy(src) && Done(a, src)
    ensures MoveStates(a, src, f) == []
  {
  }

  lemma {:induction false} SettledEntries(a: FileSystem, moves: seq<EntryMove>)
    requires forall p :: Legacy(p) ==> Done(a, p)
    ensures EntryStates(a, moves) == []
  {
    hide MoveStates, Done;
    if moves != [] {
      var n := |moves| - 1;
      SettledEntries(a, moves[..n]);
      DoneMovesNothing(a, Path(OldSessions, moves[n].name), moves[n].faults);
    }
  }

  /** A settled file system is left as it is, whatever may fail. */
  lemma SettledStays(a: FileSystem, plan: Plan)
    requires Settled(a)
    ensures forall i :: 0 <= i < |HealStates(a, plan)| ==> HealStates(a, plan)[i] == a
    ensures Then(a, HealStates(a, plan)) == a
  {
    hide MoveStates, Done, OldSessionsEmpty, EntryStates;
    DoneMovesNothing(a, CONTEXTS, plan.contexts);
    DoneMovesNothing(a, CONFIG, plan.config);
    DoneMovesNothing(a, SESSION, plan.session);
    if OldSessions in a.dirs {
      assert a.(dirs := a.dirs + {Sessions}) == a;
      if plan.entries.Some? {
        SettledEntries(a, plan.entries.value);
      }
    }
  }

  /** A heal in which everything succeeds changes nothing if and only if there is nothing left
      to do; so a second run changes nothing. */
  lemma HealChangesNothingIff(a: FileSystem, plan: Plan)
    requires AllSucceed(a, plan) && WellFormed(a)
    ensures Then(a, HealStates(a, plan)) == a <==> Settled(a)
  {
    hide Settled, HealStates, AllSucceed, WellFormed;
    HealSettles(a, plan);
    if Settled(a) {
      SettledStays(a, plan);
    }
  }

  /** A legacy item is relocated by a heal in which everything succeeds if and only if its
      destination is free; otherwise it stays. */
  lemma HealRelocatesIff(a: FileSystem, plan: Plan, p: Path)
    requires AllSucceed(a, plan) && WellFormed(a) && Legacy(p) && p in a.items
    ensures var t := Then(a, HealStates(a, plan));
            && (Dest(p) !in a.items ==> At(t, p).None? && At(t, Dest(p)) == At(a, p))
            && (Dest(p) in a.items ==> At(t, p) == At(a, p) && At(t, Dest(p)) == At(a, Dest(p)))
  {
    hide HealStates, AllSucceed, WellFormed, OldSessionsEmpty, Safe;
    var t := Then(a, HealStates(a, plan));
    HealSettles(a, plan);
    assert Done(t, p);
    SafeHere(a, t, p);
    SafeHere(a, t, Dest(p));
  }

  /** A copy that breaks off is never repaired: no later heal touches the truncated file, and
      the whole one stays behind at its legacy path. */
  lemma BrokenCopySticks(a: FileSystem, src: Path, f: Faults, plans: seq<Plan>)
    requires Legacy(src) && src in a.items && a.items[src].File? && Dest(src) !in a.items
    requires f.creates && !f.renames && !f.copies && f.progress != []
    ensures var t := Heals(Then(a, MoveStates(a, src, f)), plans);
            && At(t, Dest(src)) == Some(File(Prefix(a.items[src].data, f.progress[|f.progress| - 1])))
            && At(t, src) == At(a, src)
  {
    hide Safe, Heals, MoveStates, Then;
    var b := Then(a, MoveStates(a, src, f));
    BrokenMoveLeaves(a, src, f);
    ManyHealsAreSafe(b, plans);
    SafeHere(b, Heals(b, plans), src);
    SafeHere(b, Heals(b, plans), Dest(src));
  }

  lemma BrokenMoveLeaves(a: FileSystem, src: Path, f: Faults)
    requires Legacy(src) && src in a.items && a.items[src].File? && Dest(src) !in a.items
    requires f.creates && !f.renames && !f.copies && f.progress != []
    ensures var b := Then(a, MoveStates(a, src, f));
            && At(b, Dest(src)) == Some(File(Prefix(a.items[src].data, f.progress[|f.progress| - 1])))
            && At(b, src) == At(a, src)
  {
  }

  lemma SafeHere(a: FileSystem, b: FileSystem, p: Path)
    requires Safe(a, b)
    ensures SafeAt(a, b, p)
  {
  }

  // ---------- When a failed heal can still be made good ----------

  /** What an attempt to move an item leaves of it. */
  datatype Attempt = Untouched | Whole | Broken

  /** An attempt on a free destination: a copy that wrote something and gave up before it had
      written everything breaks the item. */
  function Outcome(item: Item, f: Faults): Attempt {
    if !f.creates then Untouched
    else if f.renames then Whole
    else if item.Folder? then Untouched
    else if f.copies then Whole
    else if f.progress == [] then Untouched
    else if Prefix(item.data, f.progress[|f.progress| - 1]) == item.data then Whole
    else Broken
  }

  /** The first of the listed attempts that leaves a mark. */
  function FirstOutcome(item: Item, moves: seq<EntryMove>, name: Name): Attempt {
    if moves == [] then Untouched
    else
      var n := |moves| - 1;
      var before := FirstOutcome(item, moves[..n], name);
      if before != Untouched then before
      else if moves[n].name == name then Outcome(item, moves[n].faults)
      else Untouched
  }

  /** What a heal does to a legacy item whose destination is free. */
  function HealOutcome(item: Item, p: Path, plan: Plan): Attempt
    requires Legacy(p)
  {
    if p == CONTEXTS then Outcome(item, plan.contexts)
    else if p == CONFIG then Outcome(item, plan.config)
    else if p == SESSION then Outcome(item, plan.session)
    else if !plan.createsSessions || plan.entries.None? then Untouched
    else FirstOutcome(item, plan.entries.value, p.name)
  }

  /** Where an attempt of that outcome leaves the item. */
  predicate Stands(fs: FileSystem, p: Path, item: Item, o: Attempt)
    requires Legacy(p)
  {
    match o
    case Untouched => At(fs, p) == Some(item) && At(fs, Dest(p)).None?
    case Whole => At(fs, Dest(p)) == Some(item)
    case Broken => At(fs, p) == Some(item) && At(fs, Dest(p)).Some? && At(fs, Dest(p)) != Some(item)
  }

  lemma DestIsInjective(p: Path, q: Path)
    requires Legacy(p) && Legacy(q) && p != q
    ensures Dest(p) != Dest(q)
  {
  }

  lemma MoveElsewhere(a: FileSystem, p: Path, src: Path, f: Faults)
    requires Legacy(p) && Legacy(src) && p != src
    ensures var t := Then(a, MoveStates(a, src, f)); At(t, p) == At(a, p) && At(t, Dest(p)) == At(a, Dest(p))
  {
    DestIsInjective(p, src);
  }

  lemma MoveOutcome(a: FileSystem, p: Path, item: Item, f: Faults)
    requires Legacy(p) && Stands(a, p, item, Untouched)
    ensures Stands(Then(a, MoveStates(a, p, f)), p, item, Outcome(item, f))
  {
    if f.creates {
      MoveLeaves(a, p, f);
    } else {
      MoveWaits(a, p, f);
    }
    hide MoveStates, Dest, Legacy;
    assert item.File? ==> item.data[..|item.data|] == item.data;
  }

  lemma MarkStays(a: FileSystem, b: FileSystem, p: Path, item: Item, o: Attempt)
    requires Legacy(p) && Safe(a, b) && o != Untouched && Stands(a, p, item, o)
    ensures Stands(b, p, item, o)
  {
    SafeHere(a, b, p);
    SafeHere(a, b, Dest(p));
  }

  lemma {:induction false} EntriesOutcome(b: FileSystem, moves: seq<EntryMove>, p: Path, item: Item)
    requires Legacy(p) && p.dir == OldSessions && Stands(b, p, item, Untouched)
    ensures Stands(Then(b, EntryStates(b, moves)), p, item, FirstOutcome(item, moves, p.name))
  {
    hide Stands, MoveStates, Outcome, Safe;
    if moves != [] {
      var n := |moves| - 1;
      var before := EntryStates(b, moves[..n]);
      var c := Then(b, before);
      EntriesOutcome(b, moves[..n], p, item);
      var src := Path(OldSessions, moves[n].name);
      var last := MoveStates(c, src, moves[n].faults);
      assert Then(b, before + last) == Then(c, last);
      if FirstOutcome(item, moves[..n], p.name) != Untouched {
        MoveIsSafe(c, src, moves[n].faults);
        ThenIsSafe(c, last);
        MarkStays(c, Then(c, last), p, item, FirstOutcome(item, moves[..n], p.name));
      } else if src == p {
        MoveOutcome(c, p, item, moves[n].faults);
      } else {
        MoveElsewhere(c, p, src, moves[n].faults);
        SameStands(c, Then(c, last), p, item, Untouched);
      }
    }
  }

  lemma SameStands(a: FileSystem, b: FileSystem, p: Path, item: Item, o: Attempt)
    requires Legacy(p) && At(b, p) == At(a, p) && At(b, Dest(p)) == At(a, Dest(p)) && Stands(a, p, item, o)
    ensures Stands(b, p, item, o)
  {
  }

  lemma MergeOutcome(b: FileSystem, plan: Plan, p: Path, item: Item)
    requires Legacy(p) && p.dir == OldSessions && OldSessions in b.dirs && Stands(b, p, item, Untouched)
    ensures Stands(Then(b, MergeStates(b, plan)), p, item, HealOutcome(item, p, plan))
  {
    hide Stands, EntryStates, FirstOutcome, OldSessionsEmpty;
    if plan.createsSessions {
      var c := b.(dirs := b.dirs + {Sessions});
      SameStands(b, c, p, item, Untouched);
      if plan.entries.Some? {
        EntriesOutcome(c, plan.entries.value, p, item);
        var d := Then(c, EntryStates(c, plan.entries.value));
        SameStands(d, d.(dirs := d.dirs - {OldSessions}), p, item, HealOutcome(item, p, plan));
      }
    }
  }

  /** A merge leaves the other legacy items alone. */
  lemma MergeElsewhere(b: FileSystem, plan: Plan, p: Path)
    requires Legacy(p) && p.dir == Home
    ensures var t := Then(b, MergeStates(b, plan)); At(t, p) == At(b, p) && At(t, Dest(p)) == At(b, Dest(p))
  {
    hide EntryStates, OldSessionsEmpty, Legacy, Dest;
    if OldSessions in b.dirs && plan.createsSessions && plan.entries.Some? {
      EntriesElsewhere(b.(dirs := b.dirs + {Sessions}), plan.entries.value, p);
    }
  }

  lemma {:induction false} EntriesElsewhere(b: FileSystem, moves: seq<EntryMove>, p: Path)
    requires Legacy(p) && p.dir == Home
    ensures var t := Then(b, EntryStates(b, moves)); At(t, p) == At(b, p) && At(t, Dest(p)) == At(b, Dest(p))
  {
    hide MoveStates;
    if moves != [] {
      var n := |moves| - 1;
      var before := EntryStates(b, moves[..n]);
      EntriesElsewhere(b, moves[..n], p);
      var src := Path(OldSessions, moves[n].name);
      MoveElsewhere(Then(b, before), p, src, moves[n].faults);
      assert Then(b, before + MoveStates(Then(b, before), src, moves[n].faults))
             == Then(Then(b, before), MoveStates(Then(b, before), src, moves[n].faults));
    }
  }

  /** The states a heal passes between its four relocations. */
  lemma HealInSteps(a: FileSystem, plan: Plan) returns (b1: FileSystem, b2: FileSystem, b3: FileSystem)
    ensures b1 == Then(a, MoveStates(a, CONTEXTS, plan.contexts))
    ensures b2 == Then(b1, MoveStates(b1, CONFIG, plan.config))
    ensures b3 == Then(b2, MoveStates(b2, SESSION, plan.session))
    ensures Then(a, HealStates(a, plan)) == Then(b3, MergeStates(b3, plan))
    ensures (OldSessions in b3.dirs <==> OldSessions in a.dirs)
  {
    MoveAddsDirs(a, CONTEXTS, plan.contexts);
    b1 := Then(a, MoveStates(a, CONTEXTS, plan.contexts));
    MoveAddsDirs(b1, CONFIG, plan.config);
    b2 := Then(b1, MoveStates(b1, CONFIG, plan.config));
    MoveAddsDirs(b2, SESSION, plan.session);
    b3 := Then(b2, MoveStates(b2, SESSION, plan.session));
    hide MoveStates, MergeStates, Then;
    var s1 := MoveStates(a, CONTEXTS, plan.contexts);
    var s2 := MoveStates(b1, CONFIG, plan.config);
    var s3 := MoveStates(b2, SESSION, plan.session);
    ThenConcat(a, s1, s2);
    ThenConcat(a, s1 + s2, s3);
    ThenConcat(a, s1 + s2 + s3, MergeStates(b3, plan));
  }

  lemma ThenConcat(a: FileSystem, first: seq<FileSystem>, second: seq<FileSystem>)
    ensures Then(a, first + second) == Then(Then(a, first), second)
  {
  }

  lemma MoveAddsDirs(a: FileSystem, src: Path, f: Faults)
    requires Legacy(src)
    ensures OldSessions in Then(a, MoveStates(a, src, f)).dirs <==> OldSessions in a.dirs
  {
  }

  /** One relocation of the three at the root. */
  lemma RootOutcome(a: FileSystem, p: Path, item: Item, src: Path, f: Faults, o: Attempt)
    requires Legacy(p) && Legacy(src) && Stands(a, p, item, o) && (p == src ==> o == Untouched)
    ensures Stands(Then(a, MoveStates(a, src, f)), p, item, if p == src then Outcome(item, f) else o)
  {
    hide Stands, MoveStates, Outcome;
    if p == src {
      MoveOutcome(a, p, item, f);
    } else {
      MoveElsewhere(a, p, src, f);
      SameStands(a, Then(a, MoveStates(a, src, f)), p, item, o);
    }
  }

  /** What a heal, whatever fails in it, leaves of a legacy item whose destination is free. */
  lemma HealLeaves(a: FileSystem, plan: Plan, p: Path)
    requires WellFormed(a) && Legacy(p) && p in a.items && Dest(p) !in a.items
    ensures Stands(Then(a, HealStates(a, plan)), p, a.items[p], HealOutcome(a.items[p], p, plan))
  {
    hide MoveStates, MergeStates, HealStates, Outcome, FirstOutcome;
    var item := a.items[p];
    var b1, b2, b3 := HealInSteps(a, plan);
    var o1 := if p == CONTEXTS then Outcome(item, plan.contexts) else Untouched;
    var o2 := if p == CONFIG then Outcome(item, plan.config) else o1;
    var o3 := if p == SESSION then Outcome(item, plan.session) else o2;
    RootOutcome(a, p, item, CONTEXTS, plan.contexts, Untouched);
    RootOutcome(b1, p, item, CONFIG, plan.config, o1);
    RootOutcome(b2, p, item, SESSION, plan.session, o2);
    if p.dir == OldSessions {
      MergeOutcome(b3, plan, p, item);
    } else {
      MergeElsewhere(b3, plan, p);
      SameStands(b3, Then(b3, MergeStates(b3, plan)), p, item, o3);
    }
  }

  lemma MoveKeepsFormed(a: FileSystem, src: Path, f: Faults)
    requires WellFormed(a) && Legacy(src)
    ensures WellFormed(Then(a, MoveStates(a, src, f)))
  {
  }

  lemma {:induction false} EntriesKeepFormed(b: FileSystem, moves: seq<EntryMove>)
    requires WellFormed(b)
    ensures WellFormed(Then(b, EntryStates(b, moves)))
  {
    hide WellFormed, MoveStates;
    if moves != [] {
      var n := |moves| - 1;
      var before := EntryStates(b, moves[..n]);
      EntriesKeepFormed(b, moves[..n]);
      var src := Path(OldSessions, moves[n].name);
      MoveKeepsFormed(Then(b, before), src, moves[n].faults);
      assert Then(b, before + MoveStates(Then(b, before), src, moves[n].faults))
             == Then(Then(b, before), MoveStates(Then(b, before), src, moves[n].faults));
    }
  }

  lemma MergeKeepsFormed(b: FileSystem, plan: Plan)
    requires WellFormed(b)
    ensures WellFormed(Then(b, MergeStates(b, plan)))
  {
    hide EntryStates;
    if OldSessions in b.dirs && plan.createsSessions && plan.entries.Some? {
      EntriesKeepFormed(b.(dirs := b.dirs + {Sessions}), plan.entries.value);
    }
  }

  /** No heal, whatever fails in it, leaves an item without its directory. */
  lemma HealKeepsFormed(a: FileSystem, plan: Plan)
    requires WellFormed(a)
    ensures WellFormed(Then(a, HealStates(a, plan)))
  {
    hide MoveStates, MergeStates, HealStates, WellFormed;
    var b1, b2, b3 := HealInSteps(a, plan);
    MoveKeepsFormed(a, CONTEXTS, plan.contexts);
    MoveKeepsFormed(b1, CONFIG, plan.config);
    MoveKeepsFormed(b2, SESSION, plan.session);
    MergeKeepsFormed(b3, plan);
  }

  /** A later start in which everything succeeds makes a failed heal good, leaving the legacy
      item whole at its destination, if and only if the failed one did not break it. */
  lemma LaterHealRepairsIff(a: FileSystem, failed: Plan, later: Plan, p: Path)
    requires WellFormed(a) && Legacy(p) && p in a.items && Dest(p) !in a.items
    requires AllSucceed(Then(a, HealStates(a, failed)), later)
    ensures At(Heals(a, [failed, later]), Dest(p)) == At(a, p) <==> HealOutcome(a.items[p], p, failed) != Broken
  {
    hide HealStates, HealOutcome, WellFormed, AllSucceed, Safe;
    var item := a.items[p];
    var b := Then(a, HealStates(a, failed));
    var c := Then(b, HealStates(b, later));
    assert [failed, later][..1] == [failed] && [failed][..0] == [];
    assert Heals(a, [failed]) == b;
    assert Heals(a, [failed, later]) == c;
    HealKeepsFormed(a, failed);
    HealLeaves(a, failed, p);
    if HealOutcome(item, p, failed) == Untouched {
      HealRelocatesIff(b, later, p);
    } else {
      HealIsSafe(b, later);
      ThenIsSafe(b, HealStates(b, later));
      MarkStays(b, c, p, item, HealOutcome(item, p, failed));
    }
  }

  /** The item at a path is moved, whole, to another that was free. */
  predicate Relocated(a: FileSystem, b: FileSystem, from: Path, to: Path) {
    from in a.items && to !in a.items ==> At(b, from).None? && At(b, to) == At(a, from)
  }

  /** Where a successful heal puts what is free to move: the contexts and the configuration go to
      the configuration directory, the session to the state directory, and each entry of the old
      sessions directory to the new one, all under their own names. */
  lemma HealPutsInPlace(a: FileSystem, plan: Plan, name: Name)
    requires WellFormed(a) && AllSucceed(a, plan)
    ensures var b := Then(a, HealStates(a, plan));
            && Relocated(a, b, Path(Home, ContextsYaml), Path(ConfigDir, ContextsYaml))
            && Relocated(a, b, Path(Home, ConfigJson), Path(ConfigDir, ConfigJson))
            && Relocated(a, b, Path(Home, SessionJson), Path(StateDir, SessionJson))
            && Relocated(a, b, Path(OldSessions, name), Path(Sessions, name))
  {
    hide HealStates, AllSucceed, WellFormed;
    forall p | p in a.items && Legacy(p)
      ensures Dest(p) !in a.items ==>
                At(Then(a, HealStates(a, plan)), p).None? && At(Then(a, HealStates(a, plan)), Dest(p)) == At(a, p)
    {
      HealRelocatesIff(a, plan, p);
    }
  }

  /** Nothing else in the home directory is a legacy item, and no heal touches it. */
  lemma OtherHomeFilesStay(a: FileSystem, plans: seq<Plan>, text: string)
    ensures At(Heals(a, plans), Path(Home, Other(text))) == At(a, Path(Home, Other(text)))
  {
    hide Heals, HealsStates;
    ManyHealsAreSafe(a, plans);
    SafeHere(a, Heals(a, plans), Path(Home, Other(text)));
  }

  /** What one move to a free place leaves, for every way its operations may fail: a rename moves
      the item; without one a directory stays, a file that is copied stands at both places until
      it is removed, and a copy that breaks off leaves as much of it as was written last. */
  lemma MoveLeaves(a: FileSystem, src: Path, f: Faults)
    requires Legacy(src) && src in a.items && Dest(src) !in a.items && f.creates
    ensures var b, item := Then(a, MoveStates(a, src, f)), a.items[src];
            if f.renames then At(b, src) == None && At(b, Dest(src)) == Some(item)
            else if item.Folder? then b.items == a.items
            else if f.copies then At(b, Dest(src)) == Some(item) && At(b, src) == if f.removes then None else Some(item)
            else
              && At(b, src) == Some(item)
              && At(b, Dest(src)) == if f.progress == [] then None
                                     else
                                       var n := f.progress[|f.progress| - 1];
                                       Some(File(if n < |item.data| then item.data[..n] else item.data))
  {
    var b := a.(dirs := a.dirs + {Dest(src).dir});
    if !f.renames && a.items[src].File? && !f.copies && f.progress != [] {
      var partials := PartialStates(b, Dest(src), a.items[src].data, f.progress);
      assert MoveStates(a, src, f) == [b] + partials;
      assert Then(a, MoveStates(a, src, f)) == partials[|f.progress| - 1];
      var data := a.items[src].data;
      assert data[..|data|] == data;
      assert partials[|f.progress| - 1]
          == Put(b, Dest(src), File(Prefix(a.items[src].data, f.progress[|f.progress| - 1])));
    } else if !f.renames && a.items[src].File? && !f.copies {
      assert MoveStates(a, src, f) == [b];
    }
  }

  /** Where the place is taken or cannot be made, nothing moves. */
  lemma MoveWaits(a: FileSystem, src: Path, f: Faults)
    requires Legacy(src) && (src !in a.items || Dest(src) in a.items || !f.creates)
    ensures MoveStates(a, src, f) == []
  {
  }
}
