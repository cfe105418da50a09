/** The order of a node's answers over runs of the cache, and what is answered in an outage. */
module NodeScopeOrder {
  import opened Options
  import opened NodeScopeCache

  // ---------- Answers in read order ----------

  predicate IsAnswer(e: Event, n: NodeId) {
    (e.FromCache? || e.FromDatabase?) && e.node == n
  }

  /** From log position `v` on, no answer for `n` is older than one given before it. */
  ghost predicate InOrder(log: seq<Event>, n: NodeId, v: nat) {
    forall j, k :: v <= j < k < |log| && IsAnswer(log[j], n) && IsAnswer(log[k], n) ==> log[j].readIx <= log[k].readIx
  }

  predicate InFlight(w: World, n: NodeId, id: ResolveId) {
    id in w.resolves && w.resolves[id].node == n
  }

  function Fresh(w: World, n: NodeId): Option<Entry> {
    Cached(w.cache, n, w.now)
  }

  /** Two resolves of one node, unless they hold the very same read. */
  predicate SameRead(w: World, n: NodeId, a: ResolveId, b: ResolveId) {
    InFlight(w, n, a) && InFlight(w, n, b) && a != b ==>
      w.resolves[a].Holding? && w.resolves[b].Holding? && w.resolves[a].readIx == w.resolves[b].readIx
  }

  /** No two resolves of the node overlap, and none holds a read older than the fresh entry. */
  ghost predicate OrderSafe(w: World, n: NodeId) {
    && (forall a, b :: SameRead(w, n, a, b))
    && (forall a :: InFlight(w, n, a) && w.resolves[a].Holding? && Fresh(w, n).Some? ==>
          Fresh(w, n).value.readIx <= w.resolves[a].readIx)
  }

  /** The step sends a resolve of `n` to the database while another is on its way. */
  ghost predicate Overlaps(w: World, step: Step, n: NodeId) {
    && step.Begin? && step.node == n && Fresh(w, n).None? && step.id !in w.resolves
    && exists id :: InFlight(w, n, id)
  }

  ghost predicate Serial(w: World, steps: seq<Step>, n: NodeId)
    decreases |steps|
  {
    steps == [] || (!Overlaps(w, steps[0], n) && Serial(Apply(w, steps[0]), steps[1..], n))
  }

  /** Everything read so far stands in the log. */
  ghost predicate Recorded(w: World, n: NodeId) {
    && (Fresh(w, n).Some? ==> Fresh(w, n).value.readIx < |w.log|)
    && (forall a :: InFlight(w, n, a) && w.resolves[a].Holding? ==> w.resolves[a].readIx < |w.log|)
  }

  /** Every answer since `v` is no newer than what may still be answered. */
  ghost predicate Orderly(w: World, n: NodeId, v: nat) {
    && v <= |w.log| && OrderSafe(w, n) && Recorded(w, n) && InOrder(w.log, n, v)
    && forall k :: v <= k < |w.log| && IsAnswer(w.log[k], n) ==>
         && w.log[k].readIx < |w.log|
         && (Fresh(w, n).Some? ==> w.log[k].readIx <= Fresh(w, n).value.readIx)
         && (forall a :: InFlight(w, n, a) && w.resolves[a].Holding? ==> w.log[k].readIx <= w.resolves[a].readIx)
  }

  /** `w'` adds no answer for `n`, no resolve of `n` and no fresher entry. */
  ghost predicate Quiet(w: World, w': World, n: NodeId) {
    && |w.log| <= |w'.log| && w'.log[..|w.log|] == w.log
    && (forall k :: |w.log| <= k < |w'.log| ==> !IsAnswer(w'.log[k], n))
    && (Fresh(w', n) == Fresh(w, n) || Fresh(w', n).None?)
    && (forall a :: InFlight(w', n, a) ==> InFlight(w, n, a) && w'.resolves[a] == w.resolves[a])
  }

  lemma QuietKeepsOrder(w: World, w': World, n: NodeId, v: nat)
    requires Orderly(w, n, v) && Quiet(w, w', n)
    ensures Orderly(w', n, v)
  {
    hide Fresh, InFlight;
    assert forall k :: 0 <= k < |w.log| ==> w'.log[k] == w.log[k];
    forall a, b
      ensures SameRead(w', n, a, b)
    {
      assert SameRead(w, n, a, b);
    }
  }

  lemma HitKeepsOrder(w: World, n: NodeId, v: nat, e: Entry)
    requires Orderly(w, n, v) && Fresh(w, n) == Some(e)
    ensures Orderly(w.(log := w.log + [FromCache(n, e.scope, w.now, e.readIx)]), n, v)
  {
    var w' := w.(log := w.log + [FromCache(n, e.scope, w.now, e.readIx)]);
    forall a, b
      ensures SameRead(w', n, a, b)
    {
      assert SameRead(w, n, a, b);
    }
  }

  /** With nothing on its way, a resolve may start. */
  lemma MissKeepsOrder(w: World, id: ResolveId, n: NodeId, v: nat)
    requires Orderly(w, n, v) && id !in w.resolves && forall a :: !InFlight(w, n, a)
    ensures Orderly(w.(resolves := w.resolves[id := Querying(n)]), n, v)
  {
    var w' := w.(resolves := w.resolves[id := Querying(n)]);
    forall a | InFlight(w', n, a)
      ensures a == id
    {
      assert a != id ==> InFlight(w, n, a);
    }
  }

  lemma OrderlyBegin(w: World, id: ResolveId, m: NodeId, n: NodeId, v: nat)
    requires Orderly(w, n, v) && !Overlaps(w, Begin(id, m), n) && !Blank(n)
    ensures Orderly(Apply(w, Begin(id, m)), n, v)
  {
    hide Blank, Orderly;
    if m != n || (Fresh(w, n).None? && id in w.resolves) {
      QuietKeepsOrder(w, Apply(w, Begin(id, m)), n, v);
    } else if Fresh(w, n).Some? {
      HitKeepsOrder(w, n, v, Fresh(w, n).value);
    } else {
      MissKeepsOrder(w, id, n, v);
    }
  }

  /** The only resolve on its way reads something newer than all before. */
  lemma ReadKeepsOrder(w: World, id: ResolveId, scope: Scope, n: NodeId, v: nat)
    requires Orderly(w, n, v) && InFlight(w, n, id) && w.resolves[id].Querying?
    ensures Orderly(Apply(w, DatabaseAnswers(id, Some(scope))), n, v)
  {
    hide Fresh;
    var w' := Apply(w, DatabaseAnswers(id, Some(scope)));
    assert Fresh(w', n) == Fresh(w, n) by { SameCache(w, w', n); }
    assert forall k :: 0 <= k < |w.log| ==> w'.log[k] == w.log[k];
    forall a | InFlight(w', n, a)
      ensures a == id
    {
      assert SameRead(w, n, a, id);
    }
  }

  lemma SameCache(w: World, w': World, n: NodeId)
    requires w.cache == w'.cache && w.now == w'.now
    ensures Fresh(w', n) == Fresh(w, n)
  {
  }

  lemma OrderlyRead(w: World, id: ResolveId, answer: Option<Scope>, n: NodeId, v: nat)
    requires Orderly(w, n, v)
    ensures Orderly(Apply(w, DatabaseAnswers(id, answer)), n, v)
  {
    hide Orderly;
    if answer.Some? && InFlight(w, n, id) && w.resolves[id].Querying? {
      ReadKeepsOrder(w, id, answer.value, n, v);
    } else {
      QuietKeepsOrder(w, Apply(w, DatabaseAnswers(id, answer)), n, v);
    }
  }

  /** What a finish writes to the log. */
  lemma FinishLog(w: World, id: ResolveId)
    requires id in w.resolves && w.resolves[id].Holding?
    ensures var p := w.resolves[id];
            var log := Apply(w, Finish(id)).log;
            && |w.log| < |log| && log[..|w.log|] == w.log
                 && log[|log| - 1] == FromDatabase(p.node, p.scope, w.now, p.readIx)
            && forall k, n :: |w.log| <= k < |log| - 1 ==> !IsAnswer(log[k], n)
  {
  }

  lemma FinishFresh(w: World, id: ResolveId, n: NodeId)
    requires id in w.resolves && w.resolves[id].Holding?
    ensures Fresh(Apply(w, Finish(id)), n)
            == if w.resolves[id].node != n then Fresh(w, n)
               else if w.cache.poisoned then None
               else Some(Entry(w.now, w.resolves[id].scope, w.resolves[id].readIx))
  {
  }

  lemma FinishKeepsOrder(w: World, id: ResolveId, n: NodeId, v: nat)
    requires Orderly(w, n, v) && InFlight(w, n, id) && w.resolves[id].Holding?
    ensures Orderly(Apply(w, Finish(id)), n, v)
  {
    var w' := Apply(w, Finish(id));
    FinishLog(w, id);
    FinishFresh(w, id, n);
    hide Fresh;
    assert forall k :: 0 <= k < |w.log| ==> w'.log[k] == w.log[k];
    forall a | InFlight(w', n, a)
      ensures w'.resolves[a].Holding? && w'.resolves[a].readIx == w.resolves[id].readIx
    {
      assert SameRead(w, n, a, id);
    }
  }

  lemma OrderlyFinish(w: World, id: ResolveId, n: NodeId, v: nat)
    requires Orderly(w, n, v)
    ensures Orderly(Apply(w, Finish(id)), n, v)
  {
    hide Orderly;
    if InFlight(w, n, id) && w.resolves[id].Holding? {
      FinishKeepsOrder(w, id, n, v);
    } else if id in w.resolves && w.resolves[id].Holding? {
      FinishLog(w, id);
      FinishFresh(w, id, n);
      QuietKeepsOrder(w, Apply(w, Finish(id)), n, v);
    }
  }

  lemma OrderlyStep(w: World, step: Step, n: NodeId, v: nat)
    requires Orderly(w, n, v) && !Overlaps(w, step, n) && !Blank(n)
    ensures Orderly(Apply(w, step), n, v)
  {
    hide Orderly, Blank, Overlaps;
    match step {
      case Begin(id, m) => OrderlyBegin(w, id, m, n, v);
      case DatabaseAnswers(id, answer) => OrderlyRead(w, id, answer, n, v);
      case Finish(id) => OrderlyFinish(w, id, n, v);
      case _ => QuietKeepsOrder(w, Apply(w, step), n, v);
    }
  }

  lemma {:induction false} OrderlyRun(w: World, steps: seq<Step>, n: NodeId, v: nat)
    requires Orderly(w, n, v) && Serial(w, steps, n) && !Blank(n)
    ensures Orderly(Run(w, steps), n, v)
    decreases |steps|
  {
    hide Apply, Orderly, Blank, Overlaps;
    if steps != [] {
      OrderlyStep(w, steps[0], n, v);
      OrderlyRun(Apply(w, steps[0]), steps[1..], n, v);
    }
  }

  // ---------- Runs that answer out of order ----------

  lemma RunOne(w: World, step: Step)
    ensures Run(w, [step]) == Apply(w, step)
  {
    hide Apply;
    assert [step][1..] == [];
  }

  /** A finish is no new resolve. */
  lemma OtherStepsSerial(w: World, step: Step, rest: seq<Step>, n: NodeId)
    requires !Overlaps(w, step, n) && Serial(Apply(w, step), rest, n)
    ensures Serial(w, [step] + rest, n) && Run(w, [step] + rest) == Run(Apply(w, step), rest)
  {
    hide Apply, Overlaps;
    assert ([step] + rest)[1..] == rest;
  }

  lemma NewerFirst(w: World, n: NodeId, a: ResolveId, b: ResolveId) returns (steps: seq<Step>)
    requires InFlight(w, n, a) && InFlight(w, n, b) && w.resolves[a].Holding? && w.resolves[b].Holding?
    requires w.resolves[a].readIx < w.resolves[b].readIx
    ensures Serial(w, steps, n) && !InOrder(Run(w, steps).log, n, |w.log|)
  {
    var w1 := Apply(w, Finish(b));
    FinishLog(w, b);
    FinishLog(w1, a);
    var w2 := Apply(w1, Finish(a));
    OtherStepsSerial(w1, Finish(a), [], n);
    OtherStepsSerial(w, Finish(b), [Finish(a)], n);
    steps := [Finish(b)] + [Finish(a)];
    assert [Finish(a)] + [] == [Finish(a)];
    assert w2.log[|w1.log| - 1] == w1.log[|w1.log| - 1];
    assert IsAnswer(w2.log[|w1.log| - 1], n) && IsAnswer(w2.log[|w2.log| - 1], n);
  }

  /** A resolve that has not read yet can read now, and then is the newer one. */
  lemma ReadsNow(w: World, n: NodeId, b: ResolveId)
    requires InFlight(w, n, b) && w.resolves[b].Querying?
    ensures var w1 := Apply(w, DatabaseAnswers(b, Some([])));
            && w1.resolves == w.resolves[b := Holding(n, [], |w.log|)] && |w1.log| == |w.log| + 1
            && forall id :: InFlight(w, n, id) ==> InFlight(w1, n, id)
  {
  }

  lemma OutOfOrderStays(log: seq<Event>, n: NodeId, v: nat, u: nat)
    requires u <= v && !InOrder(log, n, v)
    ensures !InOrder(log, n, u)
  {
  }

  lemma CrossedResolves(w: World, n: NodeId, a: ResolveId, b: ResolveId) returns (steps: seq<Step>)
    requires !SameRead(w, n, a, b) && Recorded(w, n)
    ensures Serial(w, steps, n) && !InOrder(Run(w, steps).log, n, |w.log|)
    decreases if w.resolves[a].Querying? then 1 else 0, if w.resolves[b].Querying? then 1 else 0
  {
    hide Fresh, InOrder;
    if w.resolves[b].Querying? {
      ReadsNow(w, n, b);
      var step := DatabaseAnswers(b, Some([]));
      var w1 := Apply(w, step);
      var rest: seq<Step>;
      if w.resolves[a].Querying? {
        ReadsNow(w1, n, a);
        var w2 := Apply(w1, DatabaseAnswers(a, Some([])));
        var last := NewerFirst(w2, n, b, a);
        OtherStepsSerial(w1, DatabaseAnswers(a, Some([])), last, n);
        rest := [DatabaseAnswers(a, Some([]))] + last;
        OutOfOrderStays(Run(w1, rest).log, n, |w2.log|, |w.log|);
      } else {
        rest := NewerFirst(w1, n, a, b);
        OutOfOrderStays(Run(w1, rest).log, n, |w1.log|, |w.log|);
      }
      OtherStepsSerial(w, step, rest, n);
      steps := [step] + rest;
    } else if w.resolves[a].Querying? {
      steps := CrossedResolves(w, n, b, a);
    } else if w.resolves[a].readIx < w.resolves[b].readIx {
      steps := NewerFirst(w, n, a, b);
    } else {
      steps := NewerFirst(w, n, b, a);
    }
  }

  lemma HitThenOlder(w: World, n: NodeId, a: ResolveId) returns (steps: seq<Step>)
    requires !Blank(n) && InFlight(w, n, a) && w.resolves[a].Holding? && Fresh(w, n).Some?
    requires w.resolves[a].readIx < Fresh(w, n).value.readIx
    ensures Serial(w, steps, n) && !InOrder(Run(w, steps).log, n, |w.log|)
  {
    var e := Fresh(w, n).value;
    var w1 := Apply(w, Begin(a, n));
    assert w1.log == w.log + [FromCache(n, e.scope, w.now, e.readIx)] && w1.resolves == w.resolves;
    FinishLog(w1, a);
    var w2 := Apply(w1, Finish(a));
    OtherStepsSerial(w1, Finish(a), [], n);
    OtherStepsSerial(w, Begin(a, n), [Finish(a)], n);
    steps := [Begin(a, n)] + [Finish(a)];
    assert [Finish(a)] + [] == [Finish(a)];
    assert w2.log[|w.log|] == w1.log[|w.log|];
    assert IsAnswer(w2.log[|w.log|], n) && IsAnswer(w2.log[|w2.log| - 1], n);
  }

  lemma SoundIsRecorded(w: World, n: NodeId)
    requires Sound(w)
    ensures Recorded(w, n)
  {
  }

  /** From any world, the answers for a node come in read order through every continuation in
      which its resolves do not overlap, if and only if no two are on their way already and
      none holds a read older than what the cache would answer now. */
  lemma AnswersInOrderIff(w: World, n: NodeId)
    requires Sound(w) && !Blank(n)
    ensures (forall steps :: Serial(w, steps, n) ==> InOrder(Run(w, steps).log, n, |w.log|)) <==> OrderSafe(w, n)
  {
    hide Blank, Sound, Serial, InOrder;
    SoundIsRecorded(w, n);
    if OrderSafe(w, n) {
      assert Orderly(w, n, |w.log|) by { NoAnswersYet(w, n); }
      forall steps | Serial(w, steps, n)
        ensures InOrder(Run(w, steps).log, n, |w.log|)
      {
        OrderlyRun(w, steps, n, |w.log|);
      }
    } else if a, b :| !SameRead(w, n, a, b) {
      var steps := CrossedResolves(w, n, a, b);
      assert Serial(w, steps, n) && !InOrder(Run(w, steps).log, n, |w.log|);
    } else {
      var a :| InFlight(w, n, a) && w.resolves[a].Holding? && Fresh(w, n).Some?
               && w.resolves[a].readIx < Fresh(w, n).value.readIx;
      var steps := HitThenOlder(w, n, a);
      assert Serial(w, steps, n) && !InOrder(Run(w, steps).log, n, |w.log|);
    }
  }

  lemma NoAnswersYet(w: World, n: NodeId)
    ensures InOrder(w.log, n, |w.log|)
  {
  }

  /** In every run of the cache from the start in which resolves of the node do not overlap,
      its answers never go back in time. */
  lemma SerialAnswersInOrder(steps: seq<Step>, n: NodeId)
    requires Serial(EMPTY, steps, n) && !Blank(n)
    ensures InOrder(Run(EMPTY, steps).log, n, 0)
  {
    AnswersInOrderIff(EMPTY, n);
  }

  /** The cached read of a node goes back exactly when a resolve that holds an older one
      finishes: no other step of anyone does it. */
  lemma CacheGoesBackIff(w: World, step: Step, n: NodeId)
    requires n in w.cache.entries
    ensures var c := Apply(w, step).cache;
            (n in c.entries && c.entries[n].readIx < w.cache.entries[n].readIx)
            <==> step.Finish? && InFlight(w, n, step.id) && w.resolves[step.id].Holding? && !w.cache.poisoned
                 && w.resolves[step.id].readIx < w.cache.entries[n].readIx
  {
    hide Blank;
  }

  // ---------- Outages ----------

  ghost predicate DatabaseDown(steps: seq<Step>) {
    forall i :: 0 <= i < |steps| ==> !(steps[i].DatabaseAnswers? && steps[i].answer.Some?)
  }

  /** An event of an outage that began at `w0`: a refusal, or a hit on an entry of then. */
  ghost predicate OutageEvent(w0: World, e: Event) {
    e.Refused? || (e.FromCache? && !w0.cache.poisoned && e.node in w0.cache.entries
                   && e.scope == w0.cache.entries[e.node].scope && e.at < w0.cache.entries[e.node].insertedAt + TTL)
  }

  ghost predicate InOutage(w0: World, w: World) {
    && (forall id :: id in w.resolves ==> w.resolves[id].Querying?)
    && (forall n :: n in w.cache.entries ==> n in w0.cache.entries && w.cache.entries[n] == w0.cache.entries[n])
    && (w0.cache.poisoned ==> w.cache.poisoned)
    && |w0.log| <= |w.log| && forall k :: |w0.log| <= k < |w.log| ==> OutageEvent(w0, w.log[k])
  }

  lemma OutageStep(w0: World, w: World, step: Step)
    requires InOutage(w0, w) && !(step.DatabaseAnswers? && step.answer.Some?)
    ensures InOutage(w0, Apply(w, step))
  {
    hide Blank;
  }

  lemma {:induction false} OutageRun(w0: World, w: World, steps: seq<Step>)
    requires InOutage(w0, w) && DatabaseDown(steps)
    ensures InOutage(w0, Run(w, steps))
    decreases |steps|
  {
    hide Apply, InOutage;
    if steps != [] {
      OutageStep(w0, w, steps[0]);
      OutageRun(w0, Apply(w, steps[0]), steps[1..]);
    }
  }

  /** A database outage fails closed: through any run in which every database request errs,
      each resolve is refused or repeats an entry the cache had at the start, within the
      entry's own fifteen seconds; nothing new is ever cached. */
  lemma OutageFailsClosed(w: World, steps: seq<Step>, k: nat)
    requires DatabaseDown(steps) && forall id :: id in w.resolves ==> w.resolves[id].Querying?
    requires |w.log| <= k < |Run(w, steps).log|
    ensures OutageEvent(w, Run(w, steps).log[k])
    ensures Run(w, steps).cache.entries.Keys <= w.cache.entries.Keys
  {
    OutageRun(w, w, steps);
  }
}
