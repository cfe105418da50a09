/** The command tree behind `discover`: building a node to a depth, and walking a path. */
module CmdTree {
  import opened Options

  datatype Arg = Arg(
    id: string, hidden: bool, positional: bool, required: bool, help: Option<string>,
    long: Option<string>, short: Option<char>, takesValue: bool, default: Option<string>)

  datatype Command = Command(
    name: string, about: Option<string>, aliases: seq<string>, hidden: bool, args: seq<Arg>, subs: seq<Command>)

  datatype ArgNode = ArgNode(name: string, required: bool, help: Option<string>)

  datatype OptionNode = OptionNode(
    name: string, short: Option<char>, help: Option<string>, default: Option<string>, takesValue: bool)

  /** A node without its subcommands. */
  datatype Head = Head(
    name: string, about: Option<string>, aliases: seq<string>, args: seq<ArgNode>, options: seq<OptionNode>,
        hidden: bool)

  datatype Node = Node(head: Head, subs: seq<Node>)

  // ---------- Arguments ----------

  /** Hidden arguments and the built-in help flag are left out. */
  predicate Shown(a: Arg) {
    !a.hidden && a.id != "help"
  }

  function ArgNodeOf(a: Arg): ArgNode {
    ArgNode(a.id, a.required, a.help)
  }

  function OptionNodeOf(a: Arg): OptionNode {
    OptionNode(a.long.GetOr(a.id), a.short, a.help, a.default, a.takesValue)
  }

  function Positionals(args: seq<Arg>): seq<ArgNode> {
    if args == [] then []
    else
      var a := args[|args| - 1];
      Positionals(args[..|args| - 1]) + if Shown(a) && a.positional then [ArgNodeOf(a)] else []
  }

  function Flags(args: seq<Arg>): seq<OptionNode> {
    if args == [] then []
    else
      var a := args[|args| - 1];
      Flags(args[..|args| - 1]) + if Shown(a) && !a.positional then [OptionNodeOf(a)] else []
  }

  function ShownCount(args: seq<Arg>): nat {
    if args == [] then 0 else ShownCount(args[..|args| - 1]) + if Shown(args[|args| - 1]) then 1 else 0
  }

  /** One pass over the arguments; every shown one ends up on exactly one side. */
  method SplitArguments(args: seq<Arg>) returns (positionals: seq<ArgNode>, options: seq<OptionNode>)
    ensures positionals == Positionals(args) && options == Flags(args)
    ensures |positionals| + |options| == ShownCount(args)
  {
    positionals, options := [], [];
    for i := 0 to |args|
      invariant positionals == Positionals(args[..i]) && options == Flags(args[..i])
      invariant |positionals| + |options| == ShownCount(args[..i])
    {
      assert args[..i + 1][..i] == args[..i];
      var a := args[i];
      if a.hidden {
        continue;
      }
      if a.id == "help" {
        continue;
      }
      if a.positional {
        positionals := positionals + [ArgNodeOf(a)];
      } else {
        options := options + [OptionNodeOf(a)];
      }
    }
    assert args[..|args|] == args;
  }

  // ---------- Building ----------

  function HeadOf(cmd: Command): (h: Head)
    ensures h.name == cmd.name
  {
    Head(cmd.name, if cmd.about == Some("") then None else cmd.about, cmd.aliases, Positionals(cmd.args),
         Flags(cmd.args), cmd.hidden)
  }

  function BuildNode(cmd: Command, depth: nat): Node
    decreases cmd, |cmd.subs| + 1
  {
    Node(HeadOf(cmd), if depth == 0 then [] else BuildSubs(cmd, |cmd.subs|, depth - 1))
  }

  /** The nodes of the first `n` subcommands that are not hidden. */
  function BuildSubs(cmd: Command, n: nat, depth: nat): seq<Node>
    requires n <= |cmd.subs|
    decreases cmd, n
  {
    if n == 0 then []
    else
      BuildSubs(cmd, n - 1, depth)
      + if cmd.subs[n - 1].hidden then [] else [BuildNode(cmd.subs[n - 1], depth)]
  }

  /** A node cut off below a depth. */
  function Truncate(node: Node, depth: nat): Node
    decreases node
  {
    node.(subs := if depth == 0 then []
                  else seq(|node.subs|, i requires 0 <= i < |node.subs| => Truncate(node.subs[i], depth - 1)))
  }

  /** A shallow build is a deep one cut off. */
  lemma {:induction false} ShallowIsTruncated(cmd: Command, d: nat, e: nat)
    requires d <= e
    ensures BuildNode(cmd, d) == Truncate(BuildNode(cmd, e), d)
    decreases cmd, |cmd.subs| + 1
  {
    hide HeadOf;
    if d > 0 {
      ShallowSubs(cmd, |cmd.subs|, d - 1, e - 1);
      assert Truncate(BuildNode(cmd, e), d).subs == BuildSubs(cmd, |cmd.subs|, d - 1);
    }
  }

  lemma {:induction false} ShallowSubs(cmd: Command, n: nat, d: nat, e: nat)
    requires n <= |cmd.subs| && d <= e
    ensures |BuildSubs(cmd, n, d)| == |BuildSubs(cmd, n, e)|
    ensures forall i :: 0 <= i < |BuildSubs(cmd, n, d)| ==>
              BuildSubs(cmd, n, d)[i] == Truncate(BuildSubs(cmd, n, e)[i], d)
    decreases cmd, n
  {
    hide BuildNode, Truncate;
    if n > 0 {
      ShallowSubs(cmd, n - 1, d, e);
      ShallowIsTruncated(cmd.subs[n - 1], d, e);
    }
  }

  // ---------- Walking ----------

  /** The first subcommand of that name, hidden ones included. */
  function FindSub(cmd: Command, name: string, from: nat): (r: Option<Command>)
    requires from <= |cmd.subs|
    ensures r.Some? ==> exists i :: from <= i < |cmd.subs| && cmd.subs[i] == r.value && cmd.subs[i].name == name
                                    && forall j :: from <= j < i ==> cmd.subs[j].name != name
    ensures r.None? ==> forall i :: from <= i < |cmd.subs| ==> cmd.subs[i].name != name
    decreases |cmd.subs| - from
  {
    if from == |cmd.subs| then None
    else if cmd.subs[from].name == name then Some(cmd.subs[from])
    else FindSub(cmd, name, from + 1)
  }

  function WalkCommand(cmd: Command, path: seq<string>): Option<Command> {
    if path == [] then Some(cmd)
    else
      match FindSub(cmd, path[0], 0)
      case None => None
      case Some(sub) => WalkCommand(sub, path[1..])
  }

  datatype Discovery = Found(node: Node) | UnknownSegment(token: string)

  /** Where a walk stops: the first token that names no subcommand. */
  function FirstUnknown(cmd: Command, path: seq<string>): Option<string> {
    if path == [] then None
    else
      match FindSub(cmd, path[0], 0)
      case None => Some(path[0])
      case Some(sub) => FirstUnknown(sub, path[1..])
  }

  const USIZE_MAX := 0xFFFF_FFFF_FFFF_FFFF

  function Depth(deep: bool): nat {
    if deep then USIZE_MAX else 1
  }

  method DiscoverToValue(root: Command, path: seq<string>, deep: bool) returns (r: Discovery)
    ensures r.Found? <==> WalkCommand(root, path).Some?
    ensures r.Found? ==> r.node == BuildNode(WalkCommand(root, path).value, Depth(deep))
    ensures r.UnknownSegment? ==> FirstUnknown(root, path) == Some(r.token)
  {
    hide BuildNode;
    var current := root;
    for i := 0 to |path|
      invariant WalkCommand(root, path) == WalkCommand(current, path[i..])
      invariant FirstUnknown(root, path) == FirstUnknown(current, path[i..])
    {
      assert path[i..][0] == path[i] && path[i..][1..] == path[i + 1..];
      match FindSub(current, path[i], 0)
      case Some(sub) => current := sub;
      case None => return UnknownSegment(path[i]);
    }
    return Found(BuildNode(current, Depth(deep)));
  }

  /** The same walk through the nodes a client sees. */
  function FindNode(nodes: seq<Node>, name: string): Option<Node> {
    if nodes == [] then None else if nodes[0].head.name == name then Some(nodes[0]) else FindNode(nodes[1..], name)
  }

  function WalkNode(node: Node, path: seq<string>): Option<Node>
    decreases |path|
  {
    if path == [] then Some(node)
    else
      match FindNode(node.subs, path[0])
      case None => None
      case Some(sub) => WalkNode(sub, path[1..])
  }

  /** Every subcommand along the path is shown to clients. */
  predicate VisiblePath(cmd: Command, path: seq<string>) {
    path == [] || match FindSub(cmd, path[0], 0)
                  case None => true
                  case Some(sub) => !sub.hidden && VisiblePath(sub, path[1..])
  }

  /** No two subcommands of one command share a name. */
  predicate NamesDiffer(cmd: Command) {
    forall i, j :: 0 <= i < j < |cmd.subs| ==> cmd.subs[i].name != cmd.subs[j].name
  }

  predicate UniqueNames(cmd: Command) {
    && NamesDiffer(cmd)
    && (forall i :: 0 <= i < |cmd.subs| ==> UniqueNames(cmd.subs[i]))
  }

  lemma {:induction false} FindAppended(nodes: seq<Node>, more: seq<Node>, name: string)
    ensures FindNode(nodes + more, name)
            == if FindNode(nodes, name).Some? then FindNode(nodes, name) else FindNode(more, name)
  {
    if nodes == [] {
      assert nodes + more == more;
    } else {
      assert (nodes + more)[1..] == nodes[1..] + more;
      FindAppended(nodes[1..], more, name);
    }
  }

  predicate Visible(cmd: Command, name: string, i: nat) {
    i < |cmd.subs| && cmd.subs[i].name == name && !cmd.subs[i].hidden
  }

  lemma FindOne(node: Node, name: string)
    ensures FindNode([node], name) == if node.head.name == name then Some(node) else None
  {
    assert [node][1..] == [];
  }

  lemma NameOfBuilt(cmd: Command, depth: nat)
    ensures BuildNode(cmd, depth).head.name == cmd.name
  {
    hide BuildSubs;
  }

  function FirstVisible(cmd: Command, name: string, n: nat): (r: Option<nat>)
    requires n <= |cmd.subs|
    ensures r.Some? ==>
              && r.value < n && Visible(cmd, name, r.value)
              && forall j :: 0 <= j < r.value ==> !Visible(cmd, name, j)
    ensures r.None? ==> forall j :: 0 <= j < n ==> !Visible(cmd, name, j)
  {
    if n == 0 then None
    else if FirstVisible(cmd, name, n - 1).Some? then FirstVisible(cmd, name, n - 1)
    else if Visible(cmd, name, n - 1) then Some(n - 1)
    else None
  }

  /** Among the built nodes, a name finds the first visible subcommand that bears it. */
  lemma {:induction false} FindBuilt(cmd: Command, n: nat, depth: nat, name: string)
    requires n <= |cmd.subs|
    ensures FindNode(BuildSubs(cmd, n, depth), name)
            == match FirstVisible(cmd, name, n)
               case None => None
               case Some(i) => Some(BuildNode(cmd.subs[i], depth))
  {
    hide BuildNode;
    if n > 0 {
      hide FindNode;
      FindBuilt(cmd, n - 1, depth, name);
      var sub := cmd.subs[n - 1];
      var before := BuildSubs(cmd, n - 1, depth);
      if sub.hidden {
        assert BuildSubs(cmd, n, depth) == before;
      } else {
        FindAppended(before, [BuildNode(sub, depth)], name);
        FindOne(BuildNode(sub, depth), name);
        NameOfBuilt(sub, depth);
      }
    }
  }

  /** The subcommand a walk enters, and what a client finds under its name. */
  lemma FindAgrees(cmd: Command, name: string, depth: nat)
    requires FindSub(cmd, name, 0).Some?
    ensures var sub := FindSub(cmd, name, 0).value;
            && (!sub.hidden ==> FindNode(BuildSubs(cmd, |cmd.subs|, depth), name) == Some(BuildNode(sub, depth)))
            && (sub.hidden && NamesDiffer(cmd) ==> FindNode(BuildSubs(cmd, |cmd.subs|, depth), name) == None)
  {
    hide BuildNode, BuildSubs, FindNode;
    var sub := FindSub(cmd, name, 0).value;
    var i :| 0 <= i < |cmd.subs| && cmd.subs[i] == sub && cmd.subs[i].name == name
             && forall j :: 0 <= j < i ==> cmd.subs[j].name != name;
    FindBuilt(cmd, |cmd.subs|, depth, name);
    hide FirstVisible;
    if sub.hidden && NamesDiffer(cmd) {
      forall j | 0 <= j < |cmd.subs|
        ensures !Visible(cmd, name, j)
      {
        assert j != i ==> cmd.subs[j].name != name;
      }
    } else if !sub.hidden {
      assert Visible(cmd, name, i);
    }
  }

  /** Along a visible path, walking and then building is building and then walking. */
  lemma {:induction false} WalkThenBuild(cmd: Command, path: seq<string>, depth: nat)
    requires VisiblePath(cmd, path) && |path| <= depth && WalkCommand(cmd, path).Some?
    ensures WalkNode(BuildNode(cmd, depth), path) == Some(BuildNode(WalkCommand(cmd, path).value, depth - |path|))
    decreases |path|
  {
    hide BuildSubs, FindNode, HeadOf;
    if path != [] {
      FindAgrees(cmd, path[0], depth - 1);
      WalkThenBuild(FindSub(cmd, path[0], 0).value, path[1..], depth - 1);
    }
  }

  /** With unique names, which clap insists on, it is so exactly along visible paths: the walk
      also enters hidden commands, which no listing shows. */
  lemma {:induction false} WalkShownIff(cmd: Command, path: seq<string>, depth: nat)
    requires UniqueNames(cmd) && |path| <= depth && WalkCommand(cmd, path).Some?
    ensures WalkNode(BuildNode(cmd, depth), path).Some? <==> VisiblePath(cmd, path)
    decreases |path|
  {
    hide BuildSubs, FindNode, HeadOf;
    if path != [] {
      FindAgrees(cmd, path[0], depth - 1);
      WalkShownIff(FindSub(cmd, path[0], 0).value, path[1..], depth - 1);
    }
  }

  // ---------- What a node tells ----------

  /** A visible argument without a flag shows, in its place, its own name, whether it is required
      and its help; a flag shows its long name, or its own without one. */
  lemma {:induction false} ArgumentsShow(args: seq<Arg>, i: nat)
    requires i < |args| && !args[i].hidden && args[i].id != "help"
    ensures var a, k, l := args[i], |Positionals(args[..i])|, |Flags(args[..i])|;
            if a.positional then
              k < |Positionals(args)| && Positionals(args)[k] == ArgNode(a.id, a.required, a.help)
            else
              l < |Flags(args)|
              && Flags(args)[l] == OptionNode(if a.long.Some? then a.long.value else a.id, a.short, a.help, a.default,
                                              a.takesValue)
  {
    var n := |args| - 1;
    if i < n {
      ArgumentsShow(args[..n], i);
      assert args[..n][..i] == args[..i];
    }
  }

  /** The places of the visible arguments of one sort. */
  function Visibles(args: seq<Arg>, positional: bool): set<nat> {
    set i | 0 <= i < |args| && !args[i].hidden && args[i].id != "help" && args[i].positional == positional
  }

  /** ... and nothing else is shown: hidden arguments and the built-in help flag are not. */
  lemma {:induction false} OnlyVisibleShow(args: seq<Arg>)
    ensures |Positionals(args)| == |Visibles(args, true)| && |Flags(args)| == |Visibles(args, false)|
  {
    if args != [] {
      var n := |args| - 1;
      OnlyVisibleShow(args[..n]);
      VisiblesSnoc(args, true);
      VisiblesSnoc(args, false);
      hide Visibles;
    }
  }

  lemma VisiblesSnoc(args: seq<Arg>, positional: bool)
    requires args != []
    ensures var n := |args| - 1;
            |Visibles(args, positional)|
            == |Visibles(args[..n], positional)|
               + if !args[n].hidden && args[n].id != "help" && args[n].positional == positional then 1 else 0
  {
    var n := |args| - 1;
    var before, more := Visibles(args[..n], positional), Visibles(args, positional);
    forall i
      ensures i in more && i != n <==> i in before
    {
    }
    assert more - {n} == before;
    assert n in more ==> more == before + {n};
  }

  /** The rest of a node: the name, the description unless it is empty, the aliases, and whether
      the command is hidden. */
  lemma HeadShows(cmd: Command, depth: nat)
    ensures var h := BuildNode(cmd, depth).head;
            && h.name == cmd.name && h.aliases == cmd.aliases && h.hidden == cmd.hidden
            && (h.about.None? <==> cmd.about.None? || cmd.about == Some("")) && (h.about.Some? ==> h.about == cmd.about)
            && h.args == Positionals(cmd.args) && h.options == Flags(cmd.args)
  {
    hide BuildSubs, Positionals, Flags;
  }

  /** Without `deep` a client sees one level below the node it asked for, and no more. */
  lemma ShallowShowsOneLevel(cmd: Command, path: seq<string>)
    requires VisiblePath(cmd, path) && WalkCommand(cmd, path).Some?
    ensures WalkNode(BuildNode(cmd, Depth(false)), path).Some? <==> |path| <= 1
  {
    hide BuildSubs, FindNode, HeadOf;
    if |path| <= 1 {
      WalkThenBuild(cmd, path, 1);
    } else {
      FindAgrees(cmd, path[0], 0);
      var sub := FindSub(cmd, path[0], 0).value;
      assert BuildNode(sub, 0).subs == [];
      NothingFound(path[1]);
    }
  }

  lemma NothingFound(name: string)
    ensures FindNode([], name) == None
  {
  }

  /** With it, everything visible below, however deep: a path is as long as fits a machine word. */
  lemma DeepShowsAll(cmd: Command, path: seq<string>)
    requires VisiblePath(cmd, path) && WalkCommand(cmd, path).Some? && |path| <= 18446744073709551615
    ensures WalkNode(BuildNode(cmd, Depth(true)), path).Some?
  {
    WalkThenBuild(cmd, path, Depth(true));
  }

  // ---------- Where a walk leads ----------

  /** The first subcommand of that name. */
  ghost predicate Enters(cmd: Command, name: string, sub: Command) {
    exists i :: 0 <= i < |cmd.subs| && cmd.subs[i] == sub && sub.name == name
                && forall j :: 0 <= j < i ==> cmd.subs[j].name != name
  }

  /** Commands one below the other, each the first of its name in the one before. */
  ghost predicate Chain(chain: seq<Command>, path: seq<string>) {
    |chain| == |path| + 1 && forall k :: 0 <= k < |path| ==> Enters(chain[k], path[k], chain[k + 1])
  }

  lemma FindEnters(cmd: Command, name: string, sub: Command)
    ensures FindSub(cmd, name, 0) == Some(sub) <==> Enters(cmd, name, sub)
  {
    var r := FindSub(cmd, name, 0);
    if Enters(cmd, name, sub) && r.Some? {
      var i :| 0 <= i < |cmd.subs| && cmd.subs[i] == sub && sub.name == name
               && forall j :: 0 <= j < i ==> cmd.subs[j].name != name;
      var k :| 0 <= k < |cmd.subs| && cmd.subs[k] == r.value && cmd.subs[k].name == name
               && forall j :: 0 <= j < k ==> cmd.subs[j].name != name;
      assert i == k;
    }
  }

  /** A walk leads to a command exactly when a chain of subcommands bears the names of the path. */
  lemma {:induction false} WalkIsChain(cmd: Command, path: seq<string>, target: Command)
    ensures WalkCommand(cmd, path) == Some(target)
            <==> exists chain :: Chain(chain, path) && chain[0] == cmd && chain[|path|] == target
    decreases |path|
  {
    if WalkCommand(cmd, path) == Some(target) {
      var chain := ChainOfWalk(cmd, path);
    }
    if chain: seq<Command> :| Chain(chain, path) && chain[0] == cmd && chain[|path|] == target {
      WalkOfChain(chain, path);
    }
  }

  lemma {:induction false} ChainOfWalk(cmd: Command, path: seq<string>) returns (chain: seq<Command>)
    requires WalkCommand(cmd, path).Some?
    ensures Chain(chain, path) && chain[0] == cmd && chain[|path|] == WalkCommand(cmd, path).value
    decreases |path|
  {
    chain := [cmd];
    if path != [] {
      hide Enters;
      var sub := FindSub(cmd, path[0], 0).value;
      FindEnters(cmd, path[0], sub);
      var rest := ChainOfWalk(sub, path[1..]);
      chain := [cmd] + rest;
    }
  }

  lemma {:induction false} WalkOfChain(chain: seq<Command>, path: seq<string>)
    requires Chain(chain, path)
    ensures WalkCommand(chain[0], path) == Some(chain[|path|])
    decreases |path|
  {
    if path != [] {
      hide Enters;
      FindEnters(chain[0], path[0], chain[1]);
      WalkOfChain(chain[1..], path[1..]);
    }
  }

  /** Otherwise the token named is the first that does not resolve: the walk leads as far as the
      tokens before it, and no subcommand there bears its name. */
  lemma {:induction false} UnknownIsFirst(cmd: Command, path: seq<string>)
    ensures FirstUnknown(cmd, path).None? <==> WalkCommand(cmd, path).Some?
    ensures FirstUnknown(cmd, path).Some? ==>
              exists k :: 0 <= k < |path| && path[k] == FirstUnknown(cmd, path).value
                          && WalkCommand(cmd, path[..k]).Some?
                          && forall i :: 0 <= i < |WalkCommand(cmd, path[..k]).value.subs| ==>
                               WalkCommand(cmd, path[..k]).value.subs[i].name != path[k]
    decreases |path|
  {
    if path != [] {
      match FindSub(cmd, path[0], 0)
      case None => assert path[..0] == [] && WalkCommand(cmd, path[..0]) == Some(cmd);
      case Some(sub) =>
        UnknownIsFirst(sub, path[1..]);
        if FirstUnknown(cmd, path).Some? {
          var k :| 0 <= k < |path| - 1 && path[1..][k] == FirstUnknown(sub, path[1..]).value
                   && WalkCommand(sub, path[1..][..k]).Some?
                   && forall i :: 0 <= i < |WalkCommand(sub, path[1..][..k]).value.subs| ==>
                        WalkCommand(sub, path[1..][..k]).value.subs[i].name != path[1..][k];
          assert path[..k + 1][1..] == path[1..][..k] && path[..k + 1][0] == path[0];
          assert WalkCommand(cmd, path[..k + 1]) == WalkCommand(sub, path[1..][..k]);
        }
    }
  }
}
