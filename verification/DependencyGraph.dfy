/** The dependency graph of claimable tasks and the cycle check run before a task is inserted.

    The check is an iterative depth-first search that colours nodes: no colour while
    unseen, Grey while on the stack, Black once every dependency has been explored. */
module DependencyGraph {

  datatype TaskId = TaskId(text: string)

  /** Row id to the parsed `depends_on` column. */
  type Graph = map<TaskId, seq<TaskId>>

  datatype Colour = Grey | Black

  /** One stack entry: a node and how many of its dependencies were looked at. */
  datatype Frame = Frame(node: TaskId, next: nat)

  /** A dependency naming no row of the mission has no dependencies of its own. */
  function Deps(g: Graph, n: TaskId): seq<TaskId> {
    if n in g then g[n] else []
  }

  /** Consecutive nodes of `w` are joined by a dependency. */
  ghost predicate Walk(g: Graph, w: seq<TaskId>) {
    forall i, j :: 0 <= i < j < |w| && j == i + 1 ==> w[j] in Deps(g, w[i])
  }

  ghost predicate Repeats(w: seq<TaskId>) {
    exists i, j :: 0 <= i < j < |w| && w[i] == w[j]
  }

  /** Some walk out of `start` comes back to a node it has already visited. */
  ghost predicate CycleReachable(g: Graph, start: TaskId) {
    exists w :: Walk(g, w) && |w| > 0 && w[0] == start && Repeats(w)
  }

  ghost predicate Acyclic(g: Graph) {
    forall w :: Walk(g, w) ==> !Repeats(w)
  }

  // ---------- The search ----------

  /** When each black node was finished; its dependencies were all finished earlier. */
  type Finish = map<TaskId, nat>

  ghost predicate FinishedAfterDeps(g: Graph, finish: Finish) {
    forall n, d :: n in finish && d in Deps(g, n) ==> d in finish && finish[d] < finish[n]
  }

  ghost predicate OnStack(stack: seq<Frame>, n: TaskId) {
    exists i :: 0 <= i < |stack| && stack[i].node == n
  }

  /** Grey nodes are exactly the stack, black nodes exactly the finished ones. */
  ghost predicate ColoursMatch(colour: map<TaskId, Colour>, stack: seq<Frame>, finish: Finish) {
    && (forall i :: 0 <= i < |stack| ==> stack[i].node in colour && colour[stack[i].node] == Grey)
    && (forall n :: n in colour && colour[n] == Grey ==> OnStack(stack, n))
    && (forall n :: n in finish <==> n in colour && colour[n] == Black)
  }

  /** The stack is a walk of distinct nodes from `start`. */
  ghost predicate StackIsPath(g: Graph, start: TaskId, stack: seq<Frame>) {
    && (forall i, j :: 0 <= i < j < |stack| ==> stack[i].node != stack[j].node)
    && (forall i, j :: 0 <= i < j < |stack| && j == i + 1 ==> stack[j].node in Deps(g, stack[i].node))
    && (stack != [] ==> stack[0].node == start)
  }

  /** The dependencies `stack[i]` has looked at are black, or are the node pushed from it. */
  ghost predicate Explored(g: Graph, stack: seq<Frame>, i: nat, finish: Finish)
    requires i < |stack|
  {
    && stack[i].next <= |Deps(g, stack[i].node)|
    && forall k :: 0 <= k < stack[i].next ==>
         var d := Deps(g, stack[i].node)[k];
         d in finish || (i + 1 < |stack| && d == stack[i + 1].node)
  }

  ghost predicate AllExplored(g: Graph, stack: seq<Frame>, finish: Finish) {
    forall i {:trigger Explored(g, stack, i, finish)} :: 0 <= i < |stack| ==> Explored(g, stack, i, finish)
  }

  ghost predicate SearchInvariant(g: Graph, start: TaskId, colour: map<TaskId, Colour>,
                                  stack: seq<Frame>, finish: Finish, clock: nat)
  {
    && ColoursMatch(colour, stack, finish)
    && StackIsPath(g, start, stack)
    && FinishedAfterDeps(g, finish)
    && (forall n :: n in finish ==> finish[n] < clock)
    && AllExplored(g, stack, finish)
    && (stack == [] ==> start in finish)
  }

  ghost function Universe(g: Graph, start: TaskId): (all: set<TaskId>)
    ensures start in all
  {
    {start} + set n, d | n in g && d in g[n] :: d
  }

  method DetectCycle(existing: Graph, newId: TaskId, dependsOn: seq<TaskId>) returns (cyclic: bool)
    ensures cyclic <==> CycleReachable(existing[newId := dependsOn], newId)
  {
    hide SearchInvariant, CycleReachable, Universe;
    var adj := existing[newId := dependsOn];
    var colour: map<TaskId, Colour> := map[newId := Grey];
    var stack := [Frame(newId, 0)];
    ghost var finish: Finish, clock := map[], 0;
    ghost var all := Universe(adj, newId);
    SearchStarts(adj, newId);
    assert colour.Keys == {newId};
    while stack != []
      invariant SearchInvariant(adj, newId, colour, stack, finish, clock)
      invariant colour.Keys <= all
      decreases |all - colour.Keys|, |stack|,
                if stack == [] then 0 else |Deps(adj, stack[|stack| - 1].node)| - stack[|stack| - 1].next
    {
      var top := stack[|stack| - 1];
      var neighbours := Deps(adj, top.node);
      if top.next >= |neighbours| {
        PopKeepsInvariant(adj, newId, colour, stack, finish, clock);
        colour := colour[top.node := Black];
        finish, clock := finish[top.node := clock], clock + 1;
        stack := stack[..|stack| - 1];
        continue;
      }
      var nb := neighbours[top.next];
      if nb in colour && colour[nb] == Grey {
        GreyMeansCycle(adj, newId, colour, stack, finish, clock, nb);
        return true;
      }
      if nb in colour {
        ghost var moved := stack[|stack| - 1 := Frame(top.node, top.next + 1)];
        StepPastBlack(adj, newId, colour, stack, finish, clock, top, nb, moved);
        stack := stack[|stack| - 1 := Frame(top.node, top.next + 1)];
      } else {
        ghost var pushed := stack[|stack| - 1 := Frame(top.node, top.next + 1)] + [Frame(nb, 0)];
        PushKeepsInvariant(adj, newId, colour, stack, finish, clock, top, nb, pushed);
        UncolouredShrinks(adj, newId, colour, top.node, top.next);
        stack := stack[|stack| - 1 := Frame(top.node, top.next + 1)];
        colour := colour[nb := Grey];
        stack := stack + [Frame(nb, 0)];
      }
    }
    EmptyStackMeansNoCycle(adj, newId, colour, finish, clock);
    return false;
  }

  lemma SearchStarts(g: Graph, start: TaskId)
    ensures SearchInvariant(g, start, map[start := Grey], [Frame(start, 0)], map[], 0)
  {
    assert [Frame(start, 0)][0].node == start;
  }

  lemma EmptyStackMeansNoCycle(g: Graph, start: TaskId, colour: map<TaskId, Colour>, finish: Finish, clock: nat)
    requires SearchInvariant(g, start, colour, [], finish, clock)
    ensures !CycleReachable(g, start)
  {
    FinishedHasNoCycle(g, finish, start);
  }

  lemma UncolouredShrinks(g: Graph, start: TaskId, colour: map<TaskId, Colour>, n: TaskId, k: nat)
    requires colour.Keys <= Universe(g, start)
    requires k < |Deps(g, n)| && Deps(g, n)[k] !in colour
    ensures var colour' := colour[Deps(g, n)[k] := Grey];
            && colour'.Keys <= Universe(g, start)
            && |Universe(g, start) - colour'.Keys| < |Universe(g, start) - colour.Keys|
  {
    var nb, all := Deps(g, n)[k], Universe(g, start);
    assert nb in g[n];
    assert all - colour[nb := Grey].Keys == (all - colour.Keys) - {nb};
  }

  lemma PopKeepsInvariant(g: Graph, start: TaskId, colour: map<TaskId, Colour>, stack: seq<Frame>, finish: Finish,
                          clock: nat)
    requires SearchInvariant(g, start, colour, stack, finish, clock) && stack != []
    requires stack[|stack| - 1].next >= |Deps(g, stack[|stack| - 1].node)|
    ensures var n := stack[|stack| - 1].node;
            n in colour && SearchInvariant(g, start, colour[n := Black], stack[..|stack| - 1], finish[n := clock],
                                           clock + 1)
  {
    var top := stack[|stack| - 1];
    PopKeepsColours(colour, stack, finish, clock);
    PopFinishes(g, stack, finish, clock);
    hide ColoursMatch, FinishedAfterDeps, Explored;
    var stack', finish' := stack[..|stack| - 1], finish[top.node := clock];
    forall i | 0 <= i < |stack'|
      ensures Explored(g, stack', i, finish')
    {
      PopKeepsExplored(g, stack, finish, clock, i);
    }
  }

  lemma PopKeepsColours(colour: map<TaskId, Colour>, stack: seq<Frame>, finish: Finish, clock: nat)
    requires ColoursMatch(colour, stack, finish) && stack != []
    requires forall i, j :: 0 <= i < j < |stack| ==> stack[i].node != stack[j].node
    ensures var n := stack[|stack| - 1].node;
            n in colour && ColoursMatch(colour[n := Black], stack[..|stack| - 1], finish[n := clock])
  {
    var n := stack[|stack| - 1].node;
    var stack' := stack[..|stack| - 1];
    forall m | m in colour && m != n && colour[m] == Grey
      ensures OnStack(stack', m)
    {
      assert OnStack(stack, m);
      var i :| 0 <= i < |stack| && stack[i].node == m;
      assert stack'[i].node == m;
    }
  }

  lemma PopFinishes(g: Graph, stack: seq<Frame>, finish: Finish, clock: nat)
    requires stack != [] && AllExplored(g, stack, finish) && FinishedAfterDeps(g, finish)
    requires stack[|stack| - 1].next >= |Deps(g, stack[|stack| - 1].node)| && stack[|stack| - 1].node !in finish
    requires forall n :: n in finish ==> finish[n] < clock
    ensures FinishedAfterDeps(g, finish[stack[|stack| - 1].node := clock])
  {
    var top := stack[|stack| - 1];
    assert Explored(g, stack, |stack| - 1, finish);
    forall d | d in Deps(g, top.node)
      ensures d in finish
    {
      var k :| 0 <= k < |Deps(g, top.node)| && Deps(g, top.node)[k] == d;
    }
  }

  lemma PopKeepsExplored(g: Graph, stack: seq<Frame>, finish: Finish, clock: nat, i: nat)
    requires i + 1 < |stack| && AllExplored(g, stack, finish)
    ensures Explored(g, stack[..|stack| - 1], i, finish[stack[|stack| - 1].node := clock])
  {
    assert Explored(g, stack, i, finish);
  }

  ghost predicate SameNodes(stack: seq<Frame>, moved: seq<Frame>) {
    |stack| == |moved| && forall i :: 0 <= i < |stack| ==> stack[i].node == moved[i].node
  }

  lemma StepPastBlack(g: Graph, start: TaskId, colour: map<TaskId, Colour>, stack: seq<Frame>, finish: Finish,
                      clock: nat, top: Frame, nb: TaskId, moved: seq<Frame>)
    requires SearchInvariant(g, start, colour, stack, finish, clock)
    requires stack != [] && top == stack[|stack| - 1]
    requires top.next < |Deps(g, top.node)| && nb == Deps(g, top.node)[top.next]
    requires nb in colour && colour[nb] != Grey
    requires moved == stack[|stack| - 1 := Frame(top.node, top.next + 1)]
    ensures SearchInvariant(g, start, colour, moved, finish, clock)
  {
    hide StackIsPath, FinishedAfterDeps, AllExplored;
    assert nb in finish;
    hide ColoursMatch;
    SameNodesKeepColours(colour, stack, finish, moved);
    SameNodesKeepPath(g, start, stack, moved);
    StepKeepsExplored(g, stack, finish, top, nb, moved);
  }

  lemma SameNodesKeepColours(colour: map<TaskId, Colour>, stack: seq<Frame>, finish: Finish, moved: seq<Frame>)
    requires ColoursMatch(colour, stack, finish) && SameNodes(stack, moved)
    ensures ColoursMatch(colour, moved, finish)
  {
    forall n | OnStack(stack, n)
      ensures OnStack(moved, n)
    {
      var i :| 0 <= i < |stack| && stack[i].node == n;
      assert moved[i].node == n;
    }
  }

  lemma SameNodesKeepPath(g: Graph, start: TaskId, stack: seq<Frame>, moved: seq<Frame>)
    requires StackIsPath(g, start, stack) && SameNodes(stack, moved)
    ensures StackIsPath(g, start, moved)
  {
  }

  lemma StepKeepsExplored(g: Graph, stack: seq<Frame>, finish: Finish, top: Frame, nb: TaskId, moved: seq<Frame>)
    requires AllExplored(g, stack, finish) && stack != [] && top == stack[|stack| - 1]
    requires top.next < |Deps(g, top.node)| && Deps(g, top.node)[top.next] == nb && nb in finish
    requires moved == stack[|stack| - 1 := Frame(top.node, top.next + 1)]
    ensures AllExplored(g, moved, finish)
  {
    forall i {:trigger Explored(g, moved, i, finish)} | 0 <= i < |moved|
      ensures Explored(g, moved, i, finish)
    {
      assert Explored(g, stack, i, finish);
    }
  }

  lemma PushKeepsInvariant(g: Graph, start: TaskId, colour: map<TaskId, Colour>, stack: seq<Frame>, finish: Finish,
                           clock: nat, top: Frame, nb: TaskId, pushed: seq<Frame>)
    requires SearchInvariant(g, start, colour, stack, finish, clock)
    requires stack != [] && top == stack[|stack| - 1]
    requires top.next < |Deps(g, top.node)| && nb == Deps(g, top.node)[top.next] && nb !in colour
    requires pushed == stack[|stack| - 1 := Frame(top.node, top.next + 1)] + [Frame(nb, 0)]
    ensures SearchInvariant(g, start, colour[nb := Grey], pushed, finish, clock)
  {
    hide ColoursMatch, StackIsPath, FinishedAfterDeps, AllExplored;
    NotOnStack(colour, stack, finish, nb);
    PushKeepsColours(colour, stack, finish, pushed, nb);
    PushKeepsPath(g, start, stack, pushed, nb);
    PushKeepsExplored(g, stack, finish, top, nb, pushed);
  }

  lemma NotOnStack(colour: map<TaskId, Colour>, stack: seq<Frame>, finish: Finish, nb: TaskId)
    requires ColoursMatch(colour, stack, finish) && nb !in colour
    ensures !OnStack(stack, nb)
  {
  }

  lemma PushKeepsExplored(g: Graph, stack: seq<Frame>, finish: Finish, top: Frame, nb: TaskId, pushed: seq<Frame>)
    requires AllExplored(g, stack, finish) && stack != [] && top == stack[|stack| - 1]
    requires top.next < |Deps(g, top.node)| && Deps(g, top.node)[top.next] == nb
    requires pushed == stack[|stack| - 1 := Frame(top.node, top.next + 1)] + [Frame(nb, 0)]
    ensures AllExplored(g, pushed, finish)
  {
    forall i {:trigger Explored(g, pushed, i, finish)} | 0 <= i < |pushed|
      ensures Explored(g, pushed, i, finish)
    {
      if i < |stack| {
        assert Explored(g, stack, i, finish);
      }
    }
  }

  ghost predicate PushedOnto(stack: seq<Frame>, pushed: seq<Frame>, nb: TaskId) {
    && |pushed| == |stack| + 1
    && pushed[|stack|].node == nb
    && forall i :: 0 <= i < |stack| ==> pushed[i].node == stack[i].node
  }

  lemma PushKeepsColours(colour: map<TaskId, Colour>, stack: seq<Frame>, finish: Finish, pushed: seq<Frame>, nb: TaskId)
    requires ColoursMatch(colour, stack, finish) && PushedOnto(stack, pushed, nb) && nb !in colour
    ensures ColoursMatch(colour[nb := Grey], pushed, finish)
  {
    var colour' := colour[nb := Grey];
    forall n | n in colour' && colour'[n] == Grey
      ensures OnStack(pushed, n)
    {
      if n == nb {
        assert pushed[|stack|].node == nb;
      } else {
        assert OnStack(stack, n);
        var i :| 0 <= i < |stack| && stack[i].node == n;
        assert pushed[i].node == n;
      }
    }
  }

  lemma PushKeepsPath(g: Graph, start: TaskId, stack: seq<Frame>, pushed: seq<Frame>, nb: TaskId)
    requires StackIsPath(g, start, stack) && PushedOnto(stack, pushed, nb) && stack != []
    requires !OnStack(stack, nb) && nb in Deps(g, stack[|stack| - 1].node)
    ensures StackIsPath(g, start, pushed)
  {
  }

  /** Meeting a grey node closes a cycle along the stack. */
  lemma GreyMeansCycle(g: Graph, start: TaskId, colour: map<TaskId, Colour>, stack: seq<Frame>, finish: Finish,
                       clock: nat, nb: TaskId)
    requires SearchInvariant(g, start, colour, stack, finish, clock) && stack != []
    requires nb in colour && colour[nb] == Grey && nb in Deps(g, stack[|stack| - 1].node)
    ensures CycleReachable(g, start)
  {
    var w := seq(|stack|, i requires 0 <= i < |stack| => stack[i].node) + [nb];
    assert OnStack(stack, nb);
    var j :| 0 <= j < |stack| && stack[j].node == nb;
    assert w[j] == w[|stack|];
    assert Walk(g, w);
  }

  /** A walk out of a finished node only meets nodes finished earlier. */
  lemma {:induction false} WalkGoesBackInTime(g: Graph, finish: Finish, w: seq<TaskId>)
    requires FinishedAfterDeps(g, finish) && Walk(g, w) && |w| > 0 && w[0] in finish
    ensures forall j :: 0 < j < |w| ==> w[j] in finish && finish[w[j]] < finish[w[0]]
  {
    if |w| > 1 {
      var t := w[1..];
      WalkGoesBackInTime(g, finish, t);
      assert forall j :: 1 < j < |w| ==> w[j] == t[j - 1];
    }
  }

  lemma FinishedHasNoCycle(g: Graph, finish: Finish, start: TaskId)
    requires FinishedAfterDeps(g, finish) && start in finish
    ensures !CycleReachable(g, start)
  {
    forall w | Walk(g, w) && |w| > 0 && w[0] == start
      ensures !Repeats(w)
    {
      WalkGoesBackInTime(g, finish, w);
      forall i, j | 0 <= i < j < |w|
        ensures w[i] != w[j]
      {
        var t := w[i..];
        WalkGoesBackInTime(g, finish, t);
        assert t[j - i] == w[j] && t[0] == w[i];
      }
    }
  }

  // ---------- Creating tasks ----------

  /** The id of a new task is a fresh UUID: it names no row and no row depends on it. */
  ghost predicate FreshId(g: Graph, id: TaskId) {
    id !in g && forall n :: n in g ==> id !in g[n]
  }

  /** A walk of the enlarged graph can visit a fresh node only as its first node. */
  lemma FreshNodeOnlyStarts(g: Graph, id: TaskId, deps: seq<TaskId>, w: seq<TaskId>)
    requires FreshId(g, id) && id !in deps
    requires Walk(g[id := deps], w)
    ensures forall k :: 0 < k < |w| ==> w[k] != id
    ensures |w| > 0 ==> Walk(g, w[1..])
    ensures |w| > 0 && w[0] != id ==> Walk(g, w)
  {
    var g' := g[id := deps];
    forall k | 0 < k < |w|
      ensures w[k] != id
    {
      assert w[k] in Deps(g', w[k - 1]);
    }
  }

  /** Inserting a task under a fresh id keeps the graph acyclic, whatever it depends on,
      so concurrent inserts cannot build a cycle together either. */
  lemma InsertKeepsAcyclic(g: Graph, id: TaskId, deps: seq<TaskId>)
    requires Acyclic(g) && FreshId(g, id) && id !in deps
    ensures Acyclic(g[id := deps])
  {
    forall w | Walk(g[id := deps], w)
      ensures !Repeats(w)
    {
      FreshNodeOnlyStarts(g, id, deps, w);
      if |w| > 0 && w[0] == id {
        assert !Repeats(w[1..]);
        forall i, j | 0 <= i < j < |w|
          ensures w[i] != w[j]
        {
          if i > 0 {
            assert w[1..][i - 1] == w[i] && w[1..][j - 1] == w[j];
          }
        }
      }
    }
  }

  /** On an acyclic graph the check rejects a fresh task exactly when it lists itself. */
  lemma RejectsOnlySelfDependency(g: Graph, id: TaskId, deps: seq<TaskId>)
    requires Acyclic(g) && FreshId(g, id)
    ensures CycleReachable(g[id := deps], id) <==> id in deps
  {
    if id in deps {
      var w := [id, id];
      assert Walk(g[id := deps], w) && w[0] == w[1] && Repeats(w);
    } else {
      InsertKeepsAcyclic(g, id, deps);
    }
  }
}
