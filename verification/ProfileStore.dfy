/** The daemon's profile store: a state file read as a whole, edited, and replaced through one
    temporary file, by commands that may run at the same time. */
module ProfileStore {
  import opened Options

  type Name = string

  datatype Entry = Entry(url: string, auth: string, nodeId: string, secret: string, registeredAt: string,
                         fqdn: Option<string>)

  /** The `active_profile` field, if it is there at all. */
  datatype Active = Absent | NullValue | Named(name: Name) | OtherValue

  /** A file that is missing, cannot be read or is not JSON, or its fields; one that is not an object has
      none of them. `profiles` is none when it is missing or no object. */
  datatype File =
    | Unreadable
    | Fields(version: Option<nat>, nodeId: Option<string>, secret: Option<string>, url: Option<string>,
             registeredAt: Option<string>, active: Active, profiles: Option<map<Name, Entry>>)

  datatype State = State(active: Active, profiles: Option<map<Name, Entry>>)

  /** The version is cut to 32 bits. */
  predicate IsV2(f: File) {
    f.Fields? && f.version.GetOr(0) % 0x1_0000_0000 >= 2
  }

  const DEFAULT: Name := "default"

  function ReadState(f: File): State {
    if f.Unreadable? then State(Absent, Some(map[]))
    else if IsV2(f) then State(f.active, f.profiles)
    else if f.nodeId.Some? && f.secret.Some? && f.url.Some? then
      State(Named(DEFAULT),
            Some(map[DEFAULT := Entry(f.url.value, "token", f.nodeId.value, f.secret.value, f.registeredAt.GetOr(""),
                                      None)]))
    else State(NullValue, Some(map[]))
  }

  /** Writing keeps, or gives, a version of at least two. */
  function Saved(s: State): File {
    Fields(Some(2), None, None, None, None, s.active, s.profiles)
  }

  // ---------- Commands ----------

  datatype Command =
    | Add(name: Name, entry: Entry, activate: bool) | Remove(name: Name)
    | Rename(old_: Name, new_: Name) | Use(name: Name)

  datatype Outcome = Refused | NoChange | Write(state: State)

  function Exec(c: Command, s: State): Outcome {
    match c
    case Add(name, entry, activate) =>
      if s.profiles.None? || name in s.profiles.value then Refused
      else Write(State(if activate || s.profiles.value == map[] then Named(name) else s.active,
                       Some(s.profiles.value[name := entry])))
    case Remove(name) =>
      if s.profiles.None? || name !in s.profiles.value then Refused
      else Write(State(if s.active == Named(name) then NullValue else s.active, Some(s.profiles.value - {name})))
    case Rename(old_, new_) =>
      if s.profiles.None? || old_ !in s.profiles.value || new_ in s.profiles.value then Refused
      else Write(State(if s.active == Named(old_) then Named(new_) else s.active,
                       Some((s.profiles.value - {old_})[new_ := s.profiles.value[old_]])))
    case Use(name) =>
      if s.profiles.None? || name !in s.profiles.value then Refused
      else if name == (if s.active.Named? then s.active.name else "") then NoChange
      else Write(s.(active := Named(name)))
  }

  /** The state after a command that runs alone. */
  function After(c: Command, s: State): State {
    if Exec(c, s).Write? then Exec(c, s).state else s
  }

  // ---------- The directory ----------

  type Inode = nat

  /** The content of a file. A text written from the start over a longer one leaves the end of
      that standing, and then does not parse; `author` is history, the command that wrote it. */
  datatype Content =
    | Empty
    | Original(file: File, originalLength: nat)
    | Text(author: nat, state: State, size: nat, length: nat)

  function Length(c: Content): nat {
    match c
    case Empty => 0
    case Original(_, n) => n
    case Text(_, _, _, n) => n
  }

  function Parse(c: Content): File {
    match c
    case Empty => Unreadable
    case Original(f, _) => f
    case Text(_, state, size, n) => if n == size then Saved(state) else Unreadable
  }

  /** The state file and the temporary file are two names for files. */
  datatype Disk = Disk(contents: map<Inode, Content>, path: Option<Inode>, temp: Option<Inode>, next: Inode)

  ghost predicate WellFormed(d: Disk) {
    && (d.path.Some? ==> d.path.value in d.contents)
    && (d.temp.Some? ==> d.temp.value in d.contents)
    && forall i :: i in d.contents ==> i < d.next
  }

  /** What a reader of the state file finds; a missing one reads like an unreadable one. */
  function Published(d: Disk): File {
    if d.path.Some? && d.path.value in d.contents then Parse(d.contents[d.path.value]) else Unreadable
  }

  /** Opening the temporary file for writing creates it or cuts it to nothing. */
  function Opened(d: Disk): (r: (Disk, Inode))
  {
    match d.temp
    case Some(i) => (d.(contents := d.contents[i := Empty]), i)
    case None => (d.(contents := d.contents[d.next := Empty], temp := Some(d.next), next := d.next + 1), d.next)
  }

  /** One write from the start of an open file, whatever name it has by now. */
  function Written(d: Disk, i: Inode, author: nat, state: State, size: nat): Disk {
    var before := if i in d.contents then Length(d.contents[i]) else 0;
    d.(contents := d.contents[i := Text(author, state, size, if before > size then before else size)])
  }

  /** Renaming moves whatever file bears the temporary name, and fails if none does. */
  function Renamed(d: Disk): Disk {
    if d.temp.Some? then d.(path := d.temp, temp := None) else d
  }

  /** The state file, with the handlers that edit it; `size` is the length of a text. */
  class StateFile {
    var disk: Disk

    method WriteState(state: State, size: nat) returns (ok: bool)
      requires WellFormed(disk)
      modifies this
      ensures ok && WellFormed(disk) && disk.temp.None? && Published(disk) == Saved(state)
    {
      var (cut, i) := Opened(disk);
      disk := cut;
      disk := Written(disk, i, 0, state, size);
      ok := disk.temp.Some?;
      disk := Renamed(disk);
    }

    method Add(name: Name, entry: Entry, activate: bool, size: nat) returns (ok: bool)
      requires WellFormed(disk)
      modifies this
      ensures WellFormed(disk)
      ensures ok <==> Exec(Command.Add(name, entry, activate), ReadState(Published(old(disk)))).Write?
      ensures var seen := ReadState(Published(old(disk)));
              if ok then ReadState(Published(disk)) == After(Command.Add(name, entry, activate), seen)
              else disk == old(disk)
    {
      var state := ReadState(Published(disk));
      if state.profiles.None? || name in state.profiles.value {
        return false;
      }
      var isFirst := state.profiles.value == map[];
      state := state.(profiles := Some(state.profiles.value[name := entry]));
      if activate || isFirst {
        state := state.(active := Named(name));
      }
      ok := WriteState(state, size);
    }

    method Remove(name: Name, size: nat) returns (ok: bool)
      requires WellFormed(disk)
      modifies this
      ensures WellFormed(disk)
      ensures ok <==> Exec(Command.Remove(name), ReadState(Published(old(disk)))).Write?
      ensures if ok then ReadState(Published(disk)) == After(Command.Remove(name), ReadState(Published(old(disk))))
              else disk == old(disk)
    {
      var state := ReadState(Published(disk));
      if state.profiles.None? || name !in state.profiles.value {
        return false;
      }
      state := state.(profiles := Some(state.profiles.value - {name}));
      if state.active == Named(name) {
        state := state.(active := NullValue);
      }
      ok := WriteState(state, size);
    }

    method Rename(old_: Name, new_: Name, size: nat) returns (ok: bool)
      requires WellFormed(disk)
      modifies this
      ensures WellFormed(disk)
      ensures ok <==> Exec(Command.Rename(old_, new_), ReadState(Published(old(disk)))).Write?
      ensures var seen := ReadState(Published(old(disk)));
              if ok then ReadState(Published(disk)) == After(Command.Rename(old_, new_), seen)
              else disk == old(disk)
    {
      var state := ReadState(Published(disk));
      if state.profiles.None? || old_ !in state.profiles.value || new_ in state.profiles.value {
        return false;
      }
      var entry := state.profiles.value[old_];
      state := state.(profiles := Some(state.profiles.value - {old_}));
      state := state.(profiles := Some(state.profiles.value[new_ := entry]));
      if state.active == Named(old_) {
        state := state.(active := Named(new_));
      }
      ok := WriteState(state, size);
    }

    method Use(name: Name, size: nat) returns (ok: bool)
      requires WellFormed(disk)
      modifies this
      ensures WellFormed(disk)
      ensures ok <==> Exec(Command.Use(name), ReadState(Published(old(disk)))) != Refused
      ensures var seen, now := ReadState(Published(old(disk))), ReadState(Published(disk));
              ok ==> now.profiles == seen.profiles && (name != "" || seen.active.Named? ==> now.active == Named(name))
      ensures if Exec(Command.Use(name), ReadState(Published(old(disk)))).Write?
              then ReadState(Published(disk)) == After(Command.Use(name), ReadState(Published(old(disk))))
              else disk == old(disk)
    {
      var state := ReadState(Published(disk));
      if state.profiles.None? || name !in state.profiles.value {
        return false;
      }
      var previous := if state.active.Named? then state.active.name else "";
      if previous == name {
        return true;
      }
      state := state.(active := Named(name));
      ok := WriteState(state, size);
    }
  }

  // ---------- Commands that run alone ----------

  /** Which commands are refused: on a store without profiles every one; an addition of a stored
      name; any other for a name that is not stored, and a renaming to one that is. */
  lemma RefusedIff(c: Command, s: State)
    ensures Exec(c, s).Refused? <==>
            s.profiles.None? ||
            match c
            case Add(name, _, _) => name in s.profiles.value
            case Remove(name) => name !in s.profiles.value
            case Rename(old_, new_) => old_ !in s.profiles.value || new_ in s.profiles.value
            case Use(name) => name !in s.profiles.value
    ensures Exec(c, s).NoChange? ==> c.Use? && After(c, s) == s
  {
  }

  /** Adding never overwrites, keeps every other entry, and makes the first profile active. */
  lemma AddIsAnInsertion(s: State, name: Name, entry: Entry, activate: bool)
    requires s.profiles.Some?
    ensures Exec(Add(name, entry, activate), s).Write? <==> name !in s.profiles.value
    ensures var t := After(Add(name, entry, activate), s);
            && t.profiles.Some? && s.profiles.value.Keys <= t.profiles.value.Keys
            && (forall n :: n in s.profiles.value ==> t.profiles.value[n] == s.profiles.value[n])
            && name in t.profiles.value && (name !in s.profiles.value ==> t.profiles.value[name] == entry)
            && (s.profiles.value == map[] ==> t.active == Named(name))
            && (activate && name !in s.profiles.value ==> t.active == Named(name))
  {
  }

  /** Using a stored profile makes it the active one and leaves the profiles alone, whatever was
      active before; but the nameless profile is taken for active already when none is. */
  lemma UseActivatesIff(s: State, name: Name)
    requires s.profiles.Some? && name in s.profiles.value
    ensures After(Use(name), s).active == Named(name) <==> name != "" || s.active.Named?
    ensures After(Use(name), s).profiles == s.profiles
    ensures name == "" && !s.active.Named? ==> After(Use(name), s) == s
  {
  }

  /** Using one profile and then another is using the other, in the same cases. */
  lemma LastUseWinsIff(s: State, first: Name, second: Name)
    requires s.profiles.Some? && first in s.profiles.value && second in s.profiles.value
    ensures After(Use(second), After(Use(first), s)) == After(Use(second), s)
            <==> second != "" || s.active.Named? || first == ""
  {
  }

  /** How that comes about: the active one of two profiles is removed. */
  lemma NamelessIsNotUsed(name: Name, a: Entry, b: Entry)
    requires name != ""
    ensures var s1 := After(Add("", b, false), After(Add(name, a, false), ReadState(Unreadable)));
            var s2 := After(Remove(name), s1);
            && s2.profiles == Some(map["" := b]) && Exec(Use(""), s2) == NoChange
            && After(Use(""), s2).active == NullValue
  {
    var s0 := After(Add(name, a, false), ReadState(Unreadable));
    assert s0 == State(Named(name), Some(map[name := a]));
    var s1 := After(Add("", b, false), s0);
    assert s1 == State(Named(name), Some(map[name := a, "" := b]));
    assert map[name := a, "" := b] - {name} == map["" := b];
  }

  // ---------- Reading ----------

  /** A first-version file with a login reads as one active profile that carries it; without
      all of its parts as a store without profiles. */
  lemma FirstVersionReads(f: File)
    requires f.Fields? && (f.version.None? || f.version.value < 2)
    ensures var t := ReadState(f);
            if f.nodeId.Some? && f.secret.Some? && f.url.Some? then
              && t.active == Named("default") && t.profiles.Some? && t.profiles.value.Keys == {"default"}
              && var e := t.profiles.value["default"];
                 && e.url == f.url.value && e.nodeId == f.nodeId.value && e.secret == f.secret.value
                 && e.auth == "token" && e.fqdn == None
                 && e.registeredAt == if f.registeredAt.Some? then f.registeredAt.value else ""
            else t == State(NullValue, Some(map[]))
  {
  }

  /** The version counts by its low 32 bits; from two on the file reads as it stands. */
  lemma SecondVersionReads(f: File)
    requires f.Fields? && f.version.Some?
    ensures ReadState(f) == State(f.active, f.profiles) || f.version.value % 4294967296 < 2
    ensures 2 <= f.version.value < 4294967296 ==> ReadState(f) == State(f.active, f.profiles)
  {
  }

  /** Renaming keeps the entries, one for one, and the active pointer follows its profile. */
  lemma RenameKeepsEntries(s: State, old_: Name, new_: Name)
    requires Exec(Rename(old_, new_), s).Write?
    ensures var p, q := s.profiles.value, After(Rename(old_, new_), s).profiles.value;
            && |q| == |p| && old_ !in q && new_ in q && q[new_] == p[old_]
            && (forall n :: n != old_ && n != new_ ==> (n in q <==> n in p) && (n in p ==> q[n] == p[n]))
    ensures After(Rename(old_, new_), s).active == if s.active == Named(old_) then Named(new_) else s.active
  {
    var p, q := s.profiles.value, After(Rename(old_, new_), s).profiles.value;
    assert q.Keys == p.Keys - {old_} + {new_};
    assert |p.Keys - {old_}| == |p.Keys| - 1;
  }

  /** Renaming back restores the state unless the pointer dangled on the other name. */
  lemma RenameBackRestoresIff(s: State, old_: Name, new_: Name)
    requires Exec(Rename(old_, new_), s).Write?
    ensures After(Rename(new_, old_), After(Rename(old_, new_), s)) == s <==> s.active != Named(new_)
  {
    var t := After(Rename(old_, new_), s);
    assert ((t.profiles.value - {new_})[old_ := t.profiles.value[new_]]) == s.profiles.value;
  }

  /** Removing what was just added restores the state unless adding moved the active pointer,
      or the pointer already dangled on that name. */
  lemma AddThenRemoveRestoresIff(s: State, name: Name, entry: Entry, activate: bool)
    requires Exec(Add(name, entry, activate), s).Write?
    ensures After(Remove(name), After(Add(name, entry, activate), s)) == s
            <==> s.active == NullValue || (!activate && s.profiles.value != map[] && s.active != Named(name))
  {
    var t := After(Add(name, entry, activate), s);
    assert t.profiles.value - {name} == s.profiles.value;
  }

  lemma SavedReadsBack(s: State)
    ensures ReadState(Saved(s)) == s
  {
  }

  // ---------- Commands that overlap ----------

  /** How far a command has come: its new state and the length of its text are known, it has
      the temporary file open, or it has written it. */
  datatype Phase =
    | Planned(state: State, size: nat) | Opening(state: State, size: nat, inode: Inode)
    | Filled(state: State, size: nat, inode: Inode)

  datatype Store = Store(disk: Disk, pending: map<nat, Phase>)

  datatype Step =
    | Begin(id: nat, command: Command, length: nat) | Open(id: nat) | Fill(id: nat) | Commit(id: nat) | Abandon(id: nat)

  /** A step; one that cannot be taken in this state leaves it alone. */
  function Apply(s: Store, step: Step): Store {
    var id := step.id;
    match step
    case Begin(_, c, length) =>
      var outcome := Exec(c, ReadState(Published(s.disk)));
      if id !in s.pending && outcome.Write? then s.(pending := s.pending[id := Planned(outcome.state, length)]) else s
    case Open(_) =>
      if id in s.pending && s.pending[id].Planned? then
        var (disk, i) := Opened(s.disk);
        Store(disk, s.pending[id := Opening(s.pending[id].state, s.pending[id].size, i)])
      else s
    case Fill(_) =>
      if id in s.pending && s.pending[id].Opening? then
        var p := s.pending[id];
        Store(Written(s.disk, p.inode, id, p.state, p.size), s.pending[id := Filled(p.state, p.size, p.inode)])
      else s
    case Commit(_) =>
      if id in s.pending && s.pending[id].Filled? then Store(Renamed(s.disk), s.pending - {id}) else s
    case Abandon(_) => s.(pending := s.pending - {id})
  }

  function Run(s: Store, steps: seq<Step>): Store
    decreases |steps|
  {
    if steps == [] then s else Run(Apply(s, steps[0]), steps[1..])
  }

  function Start(file: File, length: nat): Store {
    Store(Disk(map[0 := Original(file, length)], Some(0), None, 1), map[])
  }

  // ---------- The active profile ----------

  /** The active profile, when one is named, is stored. */
  predicate Sound(s: State) {
    s.active.Named? ==> s.profiles.Some? && s.active.name in s.profiles.value
  }

  /** A second-version file whose pointer names no stored profile. */
  predicate Dangling(f: File) {
    IsV2(f) && f.active.Named? && (f.profiles.None? || f.active.name !in f.profiles.value)
  }

  ghost predicate StoreSound(s: Store) {
    && (forall i :: i in s.disk.contents ==> Sound(ReadState(Parse(s.disk.contents[i]))))
    && (forall id :: id in s.pending ==> Sound(s.pending[id].state))
  }

  lemma ExecKeepsSound(c: Command, s: State)
    requires Sound(s)
    ensures Sound(After(c, s))
  {
  }

  lemma StepKeepsSound(s: Store, step: Step)
    requires StoreSound(s)
    ensures StoreSound(Apply(s, step))
  {
    hide Exec, Sound;
    if step.Begin? {
      NothingPublishedIsSound();
      ExecKeepsSound(step.command, ReadState(Published(s.disk)));
    } else {
      NothingPublishedIsSound();
      hide ReadState, Saved;
      forall state
        ensures ReadState(Saved(state)) == state
      {
        SavedReadsBack(state);
      }
    }
  }

  lemma NothingPublishedIsSound()
    ensures Sound(ReadState(Unreadable))
  {
  }

  lemma {:induction false} StoreStaysSound(s: Store, steps: seq<Step>)
    requires StoreSound(s)
    ensures StoreSound(Run(s, steps))
    decreases |steps|
  {
    hide Apply, StoreSound;
    if steps != [] {
      StepKeepsSound(s, steps[0]);
      StoreStaysSound(Apply(s, steps[0]), steps[1..]);
    }
  }

  /** However commands overlap, fail or are abandoned at any point, the active profile that is
      read stays null or one of the stored ones, if and only if it was so to begin with. */
  lemma RunKeepsSoundIff(file: File, length: nat)
    ensures (forall steps :: Sound(ReadState(Published(Run(Start(file, length), steps).disk)))) <==> !Dangling(file)
  {
    var s := Start(file, length);
    assert Run(s, []) == s && Published(s.disk) == file;
    if !Dangling(file) {
      assert StoreSound(s);
      forall steps
        ensures Sound(ReadState(Published(Run(s, steps).disk)))
      {
        hide Run, Start, Sound, ReadState;
        StoreStaysSound(s, steps);
        NothingPublishedIsSound();
      }
    }
  }

  // ---------- Which state a commit installs ----------

  ghost predicate StoreFormed(s: Store) {
    WellFormed(s.disk) && forall id :: id in s.pending && !s.pending[id].Planned? ==>
        s.pending[id].inode in s.disk.contents
  }

  lemma StepKeepsFormed(s: Store, step: Step)
    requires StoreFormed(s)
    ensures StoreFormed(Apply(s, step))
  {
    hide Exec, ReadState, Parse;
  }

  /** The text of the command stands whole under the temporary name. */
  predicate Own(s: Store, id: nat, p: Phase)
    requires p.Filled?
  {
    && id in s.pending && s.pending[id] == p && s.disk.temp == Some(p.inode) && p.inode in s.disk.contents
    && s.disk.contents[p.inode] == Text(id, p.state, p.size, p.size)
  }

  /** A write takes hold if and only if the file still bears the temporary name and nobody has
      written a longer text into it since it was cut. */
  lemma FillTakesHoldIff(s: Store, id: nat)
    requires StoreFormed(s) && id in s.pending && s.pending[id].Opening?
    ensures var p := s.pending[id];
            Own(Apply(s, Fill(id)), id, Filled(p.state, p.size, p.inode))
            <==> s.disk.temp == Some(p.inode) && Length(s.disk.contents[p.inode]) <= p.size
  {
  }

  /** A step of another command writes the temporary file, or moves it. */
  predicate Disturbs(s: Store, step: Step) {
    step.id in s.pending
    && match step
       case Open(id) => s.pending[id].Planned?
       case Fill(id) => s.pending[id].Opening? && s.disk.temp == Some(s.pending[id].inode)
       case Commit(id) => s.pending[id].Filled?
       case _ => false
  }

  predicate Undisturbed(s: Store, steps: seq<Step>)
    decreases |steps|
  {
    steps == [] || (!Disturbs(s, steps[0]) && Undisturbed(Apply(s, steps[0]), steps[1..]))
  }

  ghost predicate OfOthers(steps: seq<Step>, id: nat) {
    forall i :: 0 <= i < |steps| ==> steps[i].id != id
  }

  /** The text of the command is gone from the temporary name for good. */
  ghost predicate Lost(s: Store, id: nat, p: Phase)
    requires p.Filled?
  {
    && StoreFormed(s) && id in s.pending && s.pending[id] == p
    && (s.disk.temp.Some? ==>
        !(s.disk.contents[s.disk.temp.value].Text? && s.disk.contents[s.disk.temp.value].author == id))
  }

  lemma OwnStep(s: Store, step: Step, id: nat, p: Phase)
    requires StoreFormed(s) && p.Filled? && Own(s, id, p) && step.id != id
    ensures if Disturbs(s, step) then Lost(Apply(s, step), id, p) else Own(Apply(s, step), id, p)
  {
    hide Exec, ReadState, Parse;
    StepKeepsFormed(s, step);
  }

  lemma LostStep(s: Store, step: Step, id: nat, p: Phase)
    requires p.Filled? && Lost(s, id, p) && step.id != id
    ensures Lost(Apply(s, step), id, p)
  {
    hide Exec, ReadState, Parse;
    StepKeepsFormed(s, step);
  }

  lemma {:induction false} LostRun(s: Store, steps: seq<Step>, id: nat, p: Phase)
    requires p.Filled? && Lost(s, id, p) && OfOthers(steps, id)
    ensures Lost(Run(s, steps), id, p)
    decreases |steps|
  {
    hide Apply, Lost;
    if steps != [] {
      LostStep(s, steps[0], id, p);
      LostRun(Apply(s, steps[0]), steps[1..], id, p);
    }
  }

  lemma {:induction false} OwnRun(s: Store, steps: seq<Step>, id: nat, p: Phase)
    requires StoreFormed(s) && p.Filled? && Own(s, id, p) && OfOthers(steps, id)
    ensures StoreFormed(Run(s, steps))
    ensures if Undisturbed(s, steps) then Own(Run(s, steps), id, p) else Lost(Run(s, steps), id, p)
    decreases |steps|
  {
    hide Apply, Own, Disturbs, StoreFormed;
    if steps != [] {
      StepKeepsFormed(s, steps[0]);
      OwnStep(s, steps[0], id, p);
      if Disturbs(s, steps[0]) {
        LostRun(Apply(s, steps[0]), steps[1..], id, p);
        assert StoreFormed(Run(s, steps)) by { LostIsFormed(Run(s, steps), id, p); }
      } else {
        OwnRun(Apply(s, steps[0]), steps[1..], id, p);
      }
    }
  }

  lemma LostIsFormed(s: Store, id: nat, p: Phase)
    requires p.Filled? && Lost(s, id, p)
    ensures StoreFormed(s)
  {
  }

  /** The commit of `id` gives the state file the text of `id`, whole. */
  predicate Installs(s: Store, id: nat, p: Phase)
    requires p.Filled?
  {
    var after := Apply(s, Commit(id)).disk;
    && s.disk.temp.Some? && after.path == s.disk.temp && after.path.value in after.contents
    && after.contents[after.path.value] == Text(id, p.state, p.size, p.size)
  }

  /** Once its write has taken hold, a command installs its own state if and only if no other
      command opens, writes or renames the temporary file before its rename. */
  lemma CommitInstallsIff(s: Store, steps: seq<Step>, id: nat, p: Phase)
    requires StoreFormed(s) && p.Filled? && Own(s, id, p) && OfOthers(steps, id)
    ensures Installs(Run(s, steps), id, p) <==> Undisturbed(s, steps)
    ensures Undisturbed(s, steps) ==> ReadState(Published(Apply(Run(s, steps), Commit(id)).disk)) == p.state
  {
    hide Run, Undisturbed, StoreFormed, ReadState, Saved;
    OwnRun(s, steps, id, p);
    SavedReadsBack(p.state);
    FormedTemp(Run(s, steps));
  }

  lemma FormedTemp(s: Store)
    requires StoreFormed(s)
    ensures s.disk.temp.Some? ==> s.disk.temp.value in s.disk.contents
  {
  }

  /** A command nothing comes between does what it does alone, whatever text was left behind
      under the temporary name. */
  lemma UndisturbedIsAtomic(s: Store, id: nat, c: Command, size: nat)
    requires StoreFormed(s) && id !in s.pending && Exec(c, ReadState(Published(s.disk))).Write?
    ensures ReadState(Published(Run(s, [Begin(id, c, size), Open(id), Fill(id), Commit(id)]).disk))
            == After(c, ReadState(Published(s.disk)))
  {
    hide Exec, ReadState, Saved;
    var steps := [Begin(id, c, size), Open(id), Fill(id), Commit(id)];
    RunFour(s, steps);
    SavedReadsBack(After(c, ReadState(Published(s.disk))));
  }

  lemma RunFour(s: Store, steps: seq<Step>)
    requires |steps| == 4
    ensures Run(s, steps) == Apply(Apply(Apply(Apply(s, steps[0]), steps[1]), steps[2]), steps[3])
  {
    hide Apply;
    assert steps[1..][1..] == steps[2..] && steps[2..][1..] == steps[3..] && steps[3..][1..] == [];
    var s1 := Apply(s, steps[0]);
    var s2 := Apply(s1, steps[1]);
    var s3 := Apply(s2, steps[2]);
    assert Run(s, steps) == Run(s1, steps[1..]);
    assert Run(s1, steps[1..]) == Run(s2, steps[2..]);
    assert Run(s2, steps[2..]) == Run(s3, steps[3..]);
    assert Run(s3, steps[3..]) == Run(Apply(s3, steps[3]), []);
  }

  /** A profile another command has saved meanwhile survives a commit that installs its own
      state if and only if the committing command had read it and does not itself take it
      away, or writes it itself. */
  lemma CommitKeepsProfileIff(s: Store, id: nat, c: Command, seen: State, p: Phase, n: Name)
    requires p.Filled? && Own(s, id, p) && Exec(c, seen).Write? && p.state == Exec(c, seen).state
    ensures var t := ReadState(Published(Apply(s, Commit(id)).disk));
            t.profiles.Some? && (n in t.profiles.value
            <==> (n in seen.profiles.value && c != Remove(n) && !(c.Rename? && c.old_ == n))
                 || (c.Add? && c.name == n) || (c.Rename? && c.new_ == n))
  {
    SavedReadsBack(p.state);
  }

  // ---------- What overlapping commands do ----------

  /** Both commands have planned their writes, and nobody holds the temporary file. */
  ghost predicate TwoPlanned(s: Store, a: nat, b: nat) {
    && StoreFormed(s) && a != b && a in s.pending && b in s.pending
    && s.pending[a].Planned? && s.pending[b].Planned?
  }

  /** One command cuts the file the other is about to rename: the state file becomes empty and
      reads as a store without profiles. */
  lemma RenamePublishesNothing(s: Store, a: nat, b: nat)
    requires TwoPlanned(s, a, b)
    ensures var t := Run(s, [Open(a), Fill(a), Open(b), Commit(a)]);
            Published(t.disk) == Unreadable && ReadState(Published(t.disk)) == State(Absent, Some(map[]))
  {
    hide Exec;
    RunFour(s, [Open(a), Fill(a), Open(b), Commit(a)]);
  }

  /** The write that follows goes into the state file itself, and the rename after it fails. */
  lemma WriteReachesPublished(s: Store, a: nat, b: nat)
    requires TwoPlanned(s, a, b)
    ensures var t := Apply(Run(s, [Open(a), Fill(a), Open(b), Commit(a)]), Fill(b));
            && ReadState(Published(t.disk)) == s.pending[b].state && t.disk.temp.None?
            && Apply(t, Commit(b)).disk == t.disk
  {
    hide Exec, ReadState, Saved;
    RunFour(s, [Open(a), Fill(a), Open(b), Commit(a)]);
    SavedReadsBack(s.pending[b].state);
  }

  /** One rename publishes the text of the other command. */
  lemma RenamePublishesOther(s: Store, a: nat, b: nat)
    requires TwoPlanned(s, a, b)
    ensures var t := Apply(Run(s, [Open(a), Fill(a), Open(b), Fill(b)]), Commit(a));
            ReadState(Published(t.disk)) == s.pending[b].state
  {
    hide Exec, ReadState, Saved, Run;
    RunFour(s, [Open(a), Fill(a), Open(b), Fill(b)]);
    SavedReadsBack(s.pending[b].state);
  }

  /** A shorter text over a longer one is published and does not parse. */
  lemma RenamePublishesMixture(s: Store, a: nat, b: nat)
    requires TwoPlanned(s, a, b) && s.pending[b].size < s.pending[a].size
    ensures var t := Apply(Run(s, [Open(a), Open(b), Fill(a), Fill(b)]), Commit(b));
            Published(t.disk) == Unreadable
  {
    hide Exec, Run;
    RunFour(s, [Open(a), Open(b), Fill(a), Fill(b)]);
  }

  /** When the writes themselves do not meet, the second commit stands. */
  lemma SecondCommitStands(s: Store, i: nat, j: nat)
    requires TwoPlanned(s, i, j)
    ensures var u := Run(s, [Open(i), Fill(i), Commit(i), Open(j)]);
            && ReadState(Published(u.disk)) == s.pending[i].state
            && ReadState(Published(Apply(Apply(u, Fill(j)), Commit(j)).disk)) == s.pending[j].state
  {
    hide Exec, ReadState, Saved, Run;
    RunFour(s, [Open(i), Fill(i), Commit(i), Open(j)]);
    SavedReadsBack(s.pending[i].state);
    SavedReadsBack(s.pending[j].state);
  }

  /** Even then, of two profiles added at once the first to be saved is lost. */
  lemma OverlappingAddsLoseOne(s: Store, i: nat, j: nat, a: Name, b: Name, entry: Entry, size: nat)
    requires StoreFormed(s) && i != j && i !in s.pending && j !in s.pending && a != b
    requires Exec(Add(a, entry, false), ReadState(Published(s.disk))).Write?
    requires Exec(Add(b, entry, false), ReadState(Published(s.disk))).Write?
    ensures var t := Apply(Apply(s, Begin(j, Add(b, entry, false), size)), Begin(i, Add(a, entry, false), size));
            var u := Run(t, [Open(i), Fill(i), Commit(i), Open(j)]);
            var r := ReadState(Published(Apply(Apply(u, Fill(j)), Commit(j)).disk));
            && a in ReadState(Published(u.disk)).profiles.GetOr(map[])
            && r.profiles.Some? && a !in r.profiles.value && b in r.profiles.value
  {
    hide ReadState, Run;
    var t := Apply(Apply(s, Begin(j, Add(b, entry, false), size)), Begin(i, Add(a, entry, false), size));
    SecondCommitStands(t, i, j);
  }
}
