/** The tower's cache of node domain scopes: a map with a time to live, shared by resolvers
    that read the database between looking and inserting, and by invalidations. */
module NodeScopeCache {
  import opened Options
  import opened Bytes

  /** NODE_SCOPE_CACHE_TTL in nanoseconds. */
  const TTL := 15_000_000_000

  datatype NodeId = NodeId(raw: bytes)

  type Scope = seq<string>

  /** `readIx` is history: where in the log the database read behind the entry stands. */
  datatype Entry = Entry(insertedAt: nat, scope: Scope, readIx: nat)

  /** The map behind its lock; a lock poisoned by a panic is never usable again. */
  datatype Cache = Cache(poisoned: bool, entries: map<NodeId, Entry>)

  predicate Blank(n: NodeId) {
    Trim(n.raw) == []
  }

  function Cached(c: Cache, n: NodeId, now: nat): Option<Entry> {
    if !c.poisoned && n in c.entries && now - c.entries[n].insertedAt < TTL then Some(c.entries[n]) else None
  }

  function Invalidated(c: Cache, n: NodeId): Cache {
    if Blank(n) || c.poisoned then c else c.(entries := c.entries - {n})
  }

  function Inserted(c: Cache, n: NodeId, e: Entry): Cache {
    if c.poisoned then c else c.(entries := c.entries[n := e])
  }

  /** The shared cache itself, updated in place. */
  class SharedScopeCache {
    var poisoned: bool
    var entries: map<NodeId, Entry>

    function Contents(): Cache
      reads this
    {
      Cache(poisoned, entries)
    }

    method CachedNodeScope(n: NodeId, now: nat) returns (scope: Option<Scope>)
      ensures scope == match Cached(Contents(), n, now) case Some(e) => Some(e.scope) case None => None
    {
      if poisoned || n !in entries {
        return None;
      }
      var entry := entries[n];
      if now - entry.insertedAt < TTL {
        return Some(entry.scope);
      }
      return None;
    }

    method InvalidateNodeScope(n: NodeId)
      modifies this
      ensures Contents() == Invalidated(old(Contents()), n)
    {
      if Trim(n.raw) == [] {
        return;
      }
      if !poisoned {
        entries := entries - {n};
      }
    }

    method Insert(n: NodeId, now: nat, scope: Scope, readIx: nat)
      modifies this
      ensures Contents() == Inserted(old(Contents()), n, Entry(now, scope, readIx))
    {
      if !poisoned {
        entries := entries[n := Entry(now, scope, readIx)];
      }
    }
  }

  // ---------- Resolvers, invalidations and the clock, interleaved ----------

  type ResolveId = nat

  /** A resolve that missed the cache: waiting for the database, or holding its answer. */
  datatype Phase = Querying(node: NodeId) | Holding(node: NodeId, scope: Scope, readIx: nat)

  datatype Event =
    | WasRead(node: NodeId, scope: Scope, at: nat)
    | WasInserted(node: NodeId, scope: Scope, at: nat, readIx: nat)
    | FromCache(node: NodeId, scope: Scope, at: nat, readIx: nat)
    | FromDatabase(node: NodeId, scope: Scope, at: nat, readIx: nat)
    | Refused(node: NodeId, at: nat)

  datatype World = World(now: nat, cache: Cache, resolves: map<ResolveId, Phase>, log: seq<Event>)

  datatype Step =
    | Tick(nanos: nat)
    | Begin(id: ResolveId, node: NodeId)
    | DatabaseAnswers(id: ResolveId, answer: Option<Scope>)
    | Finish(id: ResolveId)
    | Invalidate(node: NodeId)
    | Poison

  /** The start of a resolve: a blank id and a fresh entry are answered at once. */
  function DoBegin(w: World, id: ResolveId, n: NodeId): World {
    if Blank(n) then w.(log := w.log + [Refused(n, w.now)])
    else
      match Cached(w.cache, n, w.now)
      case Some(e) => w.(log := w.log + [FromCache(n, e.scope, w.now, e.readIx)])
      case None => if id in w.resolves then w else w.(resolves := w.resolves[id := Querying(n)])
  }

  /** A database error answers the caller with nothing. */
  function DoDatabaseAnswers(w: World, id: ResolveId, answer: Option<Scope>): World {
    if id in w.resolves && w.resolves[id].Querying? then
      var n := w.resolves[id].node;
      match answer
      case Some(scope) =>
        w.(resolves := w.resolves[id := Holding(n, scope, |w.log|)], log := w.log + [WasRead(n, scope, w.now)])
      case None => w.(resolves := w.resolves - {id}, log := w.log + [Refused(n, w.now)])
    else w
  }

  function DoFinish(w: World, id: ResolveId): World {
    if id in w.resolves && w.resolves[id].Holding? then
      var Holding(n, scope, readIx) := w.resolves[id];
      w.(cache := Inserted(w.cache, n, Entry(w.now, scope, readIx)), resolves := w.resolves - {id},
         log := w.log + (if w.cache.poisoned then [] else [WasInserted(n, scope, w.now, readIx)])
                      + [FromDatabase(n, scope, w.now, readIx)])
    else w
  }

  function Apply(w: World, step: Step): World {
    match step
    case Tick(d) => w.(now := w.now + d)
    case Begin(id, n) => DoBegin(w, id, n)
    case DatabaseAnswers(id, answer) => DoDatabaseAnswers(w, id, answer)
    case Finish(id) => DoFinish(w, id)
    case Invalidate(n) => w.(cache := Invalidated(w.cache, n))
    case Poison => w.(cache := w.cache.(poisoned := true))
  }

  function Run(w: World, steps: seq<Step>): World
    decreases |steps|
  {
    if steps == [] then w else Run(Apply(w, steps[0]), steps[1..])
  }

  const EMPTY := World(0, Cache(false, map[]), map[], [])

  // ---------- Every hit is a recent database answer ----------

  /** The event at `i` is a database read that answered `scope` for `n` no later than `by`. */
  ghost predicate ReadAt(log: seq<Event>, i: nat, n: NodeId, scope: Scope, latest: nat) {
    i < |log| && log[i].WasRead? && log[i].node == n && log[i].scope == scope && log[i].at <= latest
  }

  /** The read at `i` was followed by an insertion of its answer at time `when`. */
  ghost predicate Backed(log: seq<Event>, i: nat, n: NodeId, scope: Scope, when: nat) {
    ReadAt(log, i, n, scope, when) && exists j :: i < j < |log| && log[j] == WasInserted(n, scope, when, i)
  }

  ghost predicate CacheBacked(c: Cache, now: nat, log: seq<Event>) {
    forall n :: n in c.entries ==>
      var e := c.entries[n];
      e.insertedAt <= now && Backed(log, e.readIx, n, e.scope, e.insertedAt)
  }

  ghost predicate HeldWereRead(w: World) {
    forall id :: id in w.resolves && w.resolves[id].Holding? ==>
      var Holding(n, scope, readIx) := w.resolves[id];
      ReadAt(w.log, readIx, n, scope, w.now)
  }

  /** An answer from the cache repeats a database answer inserted less than a TTL ago; an
      answer from the database repeats a read. */
  ghost predicate AnswerJustified(log: seq<Event>, k: nat)
    requires k < |log|
  {
    match log[k]
    case FromCache(n, scope, at, readIx) =>
      exists when: nat :: when <= at < when + TTL && Backed(log[..k], readIx, n, scope, when)
    case FromDatabase(n, scope, at, readIx) => ReadAt(log[..k], readIx, n, scope, at)
    case _ => true
  }

  ghost predicate Sound(w: World) {
    && CacheBacked(w.cache, w.now, w.log) && HeldWereRead(w)
    && forall k :: 0 <= k < |w.log| ==> AnswerJustified(w.log, k)
  }

  lemma BackedStays(log: seq<Event>, more: seq<Event>, i: nat, n: NodeId, scope: Scope, when: nat)
    requires Backed(log, i, n, scope, when)
    ensures Backed(log + more, i, n, scope, when)
  {
    var j :| i < j < |log| && log[j] == WasInserted(n, scope, when, i);
    assert (log + more)[j] == log[j];
  }

  lemma LogGrows(w: World, more: seq<Event>)
    requires Sound(w)
    ensures CacheBacked(w.cache, w.now, w.log + more)
    ensures forall k :: 0 <= k < |w.log| ==> AnswerJustified(w.log + more, k)
  {
    forall n | n in w.cache.entries
      ensures var e := w.cache.entries[n]; Backed(w.log + more, e.readIx, n, e.scope, e.insertedAt)
    {
      var e := w.cache.entries[n];
      BackedStays(w.log, more, e.readIx, n, e.scope, e.insertedAt);
    }
    forall k | 0 <= k < |w.log|
      ensures AnswerJustified(w.log + more, k)
    {
      assert (w.log + more)[..k] == w.log[..k];
      assert AnswerJustified(w.log, k);
    }
  }

  lemma SoundStep(w: World, step: Step)
    requires Sound(w)
    ensures Sound(Apply(w, step))
  {
    var w' := Apply(w, step);
    match step {
      case Begin(id, n) => SoundBegin(w, id, n);
      case DatabaseAnswers(id, answer) => SoundDatabaseAnswers(w, id, answer);
      case Finish(id) => SoundFinish(w, id);
      case _ =>
        assert w'.log == w.log;
    }
  }

  lemma SoundBegin(w: World, id: ResolveId, n: NodeId)
    requires Sound(w)
    ensures Sound(DoBegin(w, id, n))
  {
    hide Backed, Blank;
    var w' := DoBegin(w, id, n);
    if |w'.log| > |w.log| {
      var e := w'.log[|w.log|];
      assert w'.log == w.log + [e];
      LogGrows(w, [e]);
      assert w'.log[..|w.log|] == w.log;
      if e.FromCache? {
        var entry := w.cache.entries[n];
        assert entry.insertedAt <= w.now < entry.insertedAt + TTL;
        assert Backed(w.log, entry.readIx, n, entry.scope, entry.insertedAt);
      }
      assert AnswerJustified(w'.log, |w.log|);
    }
  }

  lemma SoundDatabaseAnswers(w: World, id: ResolveId, answer: Option<Scope>)
    requires Sound(w)
    ensures Sound(DoDatabaseAnswers(w, id, answer))
  {
    hide Backed;
    var w' := DoDatabaseAnswers(w, id, answer);
    if |w'.log| > |w.log| {
      var e := w'.log[|w.log|];
      assert w'.log == w.log + [e];
      LogGrows(w, [e]);
    }
  }

  lemma SoundFinish(w: World, id: ResolveId)
    requires Sound(w)
    ensures Sound(DoFinish(w, id))
  {
    var w' := DoFinish(w, id);
    if id in w.resolves && w.resolves[id].Holding? {
      var Holding(n, scope, readIx) := w.resolves[id];
      var inserted := if w.cache.poisoned then [] else [WasInserted(n, scope, w.now, readIx)];
      var answer := FromDatabase(n, scope, w.now, readIx);
      LogGrows(w, inserted + [answer]);
      assert w'.log == w.log + (inserted + [answer]);
      assert ReadAt(w.log, readIx, n, scope, w.now);
      if !w.cache.poisoned {
        assert w'.log[|w.log|] == WasInserted(n, scope, w.now, readIx);
        assert Backed(w'.log, readIx, n, scope, w.now);
      }
      hide Backed;
      assert AnswerJustified(w'.log, |w'.log| - 1);
    }
  }

  /** In every run every answer is justified. */
  lemma {:induction false} EveryAnswerJustified(w: World, steps: seq<Step>)
    requires Sound(w)
    ensures Sound(Run(w, steps))
    decreases |steps|
  {
    hide Apply, Sound;
    if steps != [] {
      SoundStep(w, steps[0]);
      EveryAnswerJustified(Apply(w, steps[0]), steps[1..]);
    }
  }

  /** The guarantee spelled out for a hit at position `k` of the log of any run. */
  lemma HitsAreRecentAnswers(steps: seq<Step>, k: nat)
    requires var log := Run(EMPTY, steps).log; k < |log| && log[k].FromCache?
    ensures var log := Run(EMPTY, steps).log;
            exists i: nat, j :: i < j < k && log[i].WasRead? && log[i].node == log[k].node
                && log[i].scope == log[k].scope
                         && log[j] == WasInserted(log[k].node, log[k].scope, log[j].at, i)
                         && log[i].at <= log[j].at <= log[k].at < log[j].at + TTL
  {
    hide Run;
    EveryAnswerJustified(EMPTY, steps);
    var log := Run(EMPTY, steps).log;
    assert AnswerJustified(log, k);
    var FromCache(n, scope, at, i) := log[k];
    var when: nat :| when <= at < when + TTL && Backed(log[..k], i, n, scope, when);
    var j :| i < j < k && log[..k][j] == WasInserted(n, scope, when, i);
    assert log[j] == log[..k][j] && log[i] == log[..k][i];
  }

  // ---------- Invalidation ----------

  /** From log position `v` on, everything answered for `n` was read at or after `v`. */
  ghost predicate AnswersSince(log: seq<Event>, n: NodeId, v: nat) {
    forall k :: v <= k < |log| && (log[k].FromCache? || log[k].FromDatabase?) && log[k].node == n ==> log[k].readIx >= v
  }

  ghost predicate NothingStale(w: World, n: NodeId, v: nat) {
    && v <= |w.log| && AnswersSince(w.log, n, v)
    && (!w.cache.poisoned && n in w.cache.entries ==> w.cache.entries[n].readIx >= v)
    && forall id :: id in w.resolves && w.resolves[id].Holding? && w.resolves[id].node == n ==>
         w.resolves[id].readIx >= v
  }

  lemma NothingStaleStep(w: World, step: Step, n: NodeId, v: nat)
    requires NothingStale(w, n, v)
    ensures NothingStale(Apply(w, step), n, v)
  {
    hide Blank;
  }

  lemma {:induction false} NothingStaleRun(w: World, steps: seq<Step>, n: NodeId, v: nat)
    requires NothingStale(w, n, v)
    ensures NothingStale(Run(w, steps), n, v)
    decreases |steps|
  {
    hide Apply, NothingStale;
    if steps != [] {
      NothingStaleStep(w, steps[0], n, v);
      NothingStaleRun(Apply(w, steps[0]), steps[1..], n, v);
    }
  }

  /** No resolve of `n` is holding an answer it has not inserted yet. */
  ghost predicate NoneHolding(w: World, n: NodeId) {
    forall id :: id in w.resolves && w.resolves[id].Holding? ==> w.resolves[id].node != n
  }

  /** After an invalidation no continuation answers for the node with something read
      before it, if and only if no resolve in flight had already read. */
  lemma InvalidationIsEffective(w: World, n: NodeId)
    requires HeldWereRead(w) && !Blank(n)
    ensures (forall steps :: AnswersSince(Run(Apply(w, Invalidate(n)), steps).log, n, |w.log|)) <==> NoneHolding(w, n)
  {
    var w0 := Apply(w, Invalidate(n));
    if NoneHolding(w, n) {
      assert NothingStale(w0, n, |w.log|);
      forall steps
        ensures AnswersSince(Run(w0, steps).log, n, |w.log|)
      {
        NothingStaleRun(w0, steps, n, |w.log|);
      }
    } else {
      var id :| id in w.resolves && w.resolves[id].Holding? && w.resolves[id].node == n;
      var steps := [Finish(id)];
      var w1 := Apply(w0, Finish(id));
      assert steps[1..] == [] && Run(w0, steps) == Run(w1, []);
      var k := |w1.log| - 1;
      assert w1.log[k].FromDatabase? && w1.log[k].readIx < |w.log|;
      assert !AnswersSince(Run(Apply(w, Invalidate(n)), steps).log, n, |w.log|);
    }
  }

  /** Two resolves that cross can put an older answer back over a newer one: nothing orders
      the insertions by when the database was read. */
  lemma OlderAnswerCanReturn(n: NodeId, older: Scope, newer: Scope)
    requires !Blank(n) && older != newer
    ensures var steps := [Begin(0, n), Begin(1, n), DatabaseAnswers(0, Some(older)), DatabaseAnswers(1, Some(newer)),
                          Finish(1), Begin(2, n), Finish(0), Begin(3, n)];
            var log := Run(EMPTY, steps).log;
            && |log| == 8 && log[4] == FromCache(n, newer, 0, 1) && log[7] == FromCache(n, older, 0, 0)
  {
    hide Blank, Run;
    var w1 := Apply(Apply(EMPTY, Begin(0, n)), Begin(1, n));
    assert w1 == World(0, Cache(false, map[]), map[0 := Querying(n), 1 := Querying(n)], []);
    var w2 := Apply(Apply(w1, DatabaseAnswers(0, Some(older))), DatabaseAnswers(1, Some(newer)));
    assert w2.log == [WasRead(n, older, 0), WasRead(n, newer, 0)];
    var w3 := Apply(Apply(w2, Finish(1)), Begin(2, n));
    assert w3.log == w2.log + [WasInserted(n, newer, 0, 1), FromDatabase(n, newer, 0, 1), FromCache(n, newer, 0, 1)];
    var w4 := Apply(Apply(w3, Finish(0)), Begin(3, n));
    assert w4.log == w3.log + [WasInserted(n, older, 0, 0), FromDatabase(n, older, 0, 0), FromCache(n, older, 0, 0)];
    var steps := [Begin(0, n), Begin(1, n), DatabaseAnswers(0, Some(older)), DatabaseAnswers(1, Some(newer)),
                  Finish(1), Begin(2, n), Finish(0), Begin(3, n)];
    RunEight(EMPTY, steps);
  }

  lemma RunEight(w: World, steps: seq<Step>)
    requires |steps| == 8
    ensures var w1 := Apply(Apply(w, steps[0]), steps[1]);
            var w2 := Apply(Apply(w1, steps[2]), steps[3]);
            var w3 := Apply(Apply(w2, steps[4]), steps[5]);
            Run(w, steps) == Apply(Apply(w3, steps[6]), steps[7])
  {
    hide Apply;
    var w1 := Apply(Apply(w, steps[0]), steps[1]);
    var w2 := Apply(Apply(w1, steps[2]), steps[3]);
    var w3 := Apply(Apply(w2, steps[4]), steps[5]);
    RunTwo(w, steps);
    RunTwo(w1, steps[2..]);
    RunTwo(w2, steps[4..]);
    RunTwo(w3, steps[6..]);
    assert steps[2..][2..] == steps[4..] && steps[4..][2..] == steps[6..] && steps[6..][2..] == [];
  }

  lemma RunTwo(w: World, steps: seq<Step>)
    requires |steps| >= 2
    ensures Run(w, steps) == Run(Apply(Apply(w, steps[0]), steps[1]), steps[2..])
  {
    hide Apply;
    assert steps[1..][0] == steps[1] && steps[1..][1..] == steps[2..];
    assert Run(w, steps) == Run(Apply(w, steps[0]), steps[1..]);
  }

  // ---------- How long an answer is kept ----------

  /** A scope just inserted answers for less than fifteen seconds without the database; after
      that, and at once after an invalidation, the database is asked. */
  lemma ScopeLivesFifteenSeconds(w: World, id: ResolveId, later: ResolveId, pause: nat)
    requires id in w.resolves && w.resolves[id].Holding? && !w.cache.poisoned && !Blank(w.resolves[id].node)
    requires later !in w.resolves
    ensures var n, scope := w.resolves[id].node, w.resolves[id].scope;
            var w1 := Apply(Apply(w, Finish(id)), Tick(pause));
            var w2 := Apply(w1, Begin(later, n));
            if pause < 15_000_000_000 then
              && w2.log == w1.log + [FromCache(n, scope, w1.now, w.resolves[id].readIx)] && w2.resolves == w1.resolves
            else w2.log == w1.log && w2.resolves == w1.resolves[later := Querying(n)]
    ensures var n := w.resolves[id].node;
            var w1 := Apply(Apply(w, Finish(id)), Invalidate(n));
            Apply(w1, Begin(later, n)).resolves == w1.resolves[later := Querying(n)]
  {
    hide Blank;
  }

  /** A node without an id is refused and nobody is asked. */
  lemma BlankIsRefused(w: World, id: ResolveId, n: NodeId)
    requires Blank(n)
    ensures Apply(w, Begin(id, n)) == w.(log := w.log + [Refused(n, w.now)])
  {
    hide Blank;
  }

  /** A database error ends the resolve with a refusal and leaves the cache as it is. */
  lemma ErrorEndsResolve(w: World, id: ResolveId)
    requires id in w.resolves && w.resolves[id].Querying?
    ensures var w' := Apply(w, DatabaseAnswers(id, None));
            && w'.log == w.log + [Refused(w.resolves[id].node, w.now)] && w'.resolves == w.resolves - {id}
            && w'.cache == w.cache
  {
  }

  /** Invalidating a blank id, or behind a poisoned lock, changes nothing. */
  lemma IdleInvalidations(w: World, n: NodeId)
    requires Blank(n) || w.cache.poisoned
    ensures Apply(w, Invalidate(n)) == w
  {
    hide Blank;
  }
}
