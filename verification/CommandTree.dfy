/**
 Flattening a command tree into overloads. The loops are proved against a recursive
 listing of paths; the listing is proved to be exactly the callable nodes of the tree, each
 once, in preorder.
 */
module CommandTrees {

  datatype ArgumentType =
    | Literal
    | String
    | Int
    | Float
    | Location
    | Boolean
    | Player
    | Target
    | Array
    | Duration
    | PlayerName
    | OtherType(name: string)

  /** One node of a command: a parameter or literal, possibly callable, with its continuations. */
  datatype Node = Node(
    name: string,
    argumentType: ArgumentType,
    allowedValues: seq<string>,
    children: seq<Node>,
    canBeCalled: bool)

  /** The example value that stands for a parameter's type. */
  datatype Value =
    | IntValue
    | FloatValue
    | StringValue(text: string)
    | BoolValue
    | Vec3Value
    | SubCommandValue
    | VarargsValue
    | EnumValue(typeName: string, options: seq<string>)
    | OtherValue

  datatype ParamInfo = ParamInfo(name: string, value: Value, optional: bool, suffix: string)

  /** A command as the backend describes it. */
  datatype EngineCommand = EngineCommand(
    name: string,
    description: string,
    aliases: seq<string>,
    children: seq<Node>,
    canBeCalled: bool,
    requiresOp: bool)

  /** A command as it is registered; no overloads at all when it was registered without any. */
  datatype Command = Command(
    name: string,
    description: string,
    aliases: seq<string>,
    params: seq<seq<ParamInfo>>,
    requiresOp: bool)

  type Path = seq<Node>

  // ---------------------------------------------------------------------------
  // The listing
  // ---------------------------------------------------------------------------

  /** Every path of the list with `node` put in front. */
  function Prefixed(node: Node, paths: seq<Path>): (r: seq<Path>)
    ensures |r| == |paths|
  {
    seq(|paths|, i requires 0 <= i < |paths| => [node] + paths[i])
  }

  function PathsOf(node: Node): seq<Path>
    decreases node, 1
  {
    (if node.canBeCalled then [[node]] else []) + Prefixed(node, PathsOfAll(node.children))
  }

  function PathsOfAll(nodes: seq<Node>): seq<Path>
    decreases nodes, 0
  {
    if nodes == [] then [] else PathsOfAll(nodes[..|nodes| - 1]) + PathsOf(nodes[|nodes| - 1])
  }

  lemma PrefixedConcat(node: Node, a: seq<Path>, b: seq<Path>)
    ensures Prefixed(node, a + b) == Prefixed(node, a) + Prefixed(node, b)
  {
  }

  /** Prepends the current node to each child path. */
  method PrependAll(current: Node, childPaths: seq<Path>) returns (paths: seq<Path>)
    ensures paths == Prefixed(current, childPaths)
  {
    paths := [];
    for m := 0 to |childPaths|
      invariant paths == Prefixed(current, childPaths[..m])
    {
      paths := paths + [[current] + childPaths[m]];
    }
    assert childPaths[..|childPaths|] == childPaths;
  }

  /** Collects the paths from one node to its callable descendants, itself included. */
  method BuildCommandPaths(current: Node) returns (paths: seq<Path>)
    ensures paths == PathsOf(current)
    decreases current
  {
    hide PathsOf, Prefixed;
    paths := [];
    if current.canBeCalled {
      paths := paths + [[current]];
    }
    ghost var own := paths;
    NothingPrefixed(current);
    if |current.children| > 0 {
      for n := 0 to |current.children|
        invariant paths == own + Prefixed(current, PathsOfAll(current.children[..n]))
      {
        assert current.children[..n + 1][..n] == current.children[..n];
        var childPaths := BuildCommandPaths(current.children[n]);
        var fullPaths := PrependAll(current, childPaths);
        PrefixedConcat(current, PathsOfAll(current.children[..n]), childPaths);
        paths := paths + fullPaths;
      }
      assert current.children[..|current.children|] == current.children;
    }
    PathsOfSplits(current);
  }

  lemma NothingPrefixed(node: Node)
    ensures Prefixed(node, []) == []
  {
  }

  lemma PathsOfSplits(node: Node)
    ensures PathsOf(node) == (if node.canBeCalled then [[node]] else []) + Prefixed(node, PathsOfAll(node.children))
  {
  }

  // ---------------------------------------------------------------------------
  // The listing is exact
  // ---------------------------------------------------------------------------

  /** Where a node sits: the child index taken at each level. */
  type Address = seq<nat>

  predicate Reaches(nodes: seq<Node>, address: Address) {
    address != [] && address[0] < |nodes| &&
    (|address| == 1 || Reaches(nodes[address[0]].children, address[1..]))
  }

  /** The nodes met on the way to an address. */
  function Walk(nodes: seq<Node>, address: Address): (path: Path)
    requires Reaches(nodes, address)
    ensures |path| == |address|
  {
    if |address| == 1 then [nodes[address[0]]]
    else [nodes[address[0]]] + Walk(nodes[address[0]].children, address[1..])
  }

  predicate Callable(nodes: seq<Node>, address: Address) {
    Reaches(nodes, address) && var path := Walk(nodes, address); path[|path| - 1].canBeCalled
  }

  /** Preorder: a node before its descendants, and left siblings before right ones. */
  predicate Before(a: Address, b: Address) {
    if b == [] then false
    else if a == [] then true
    else a[0] < b[0] || (a[0] == b[0] && Before(a[1..], b[1..]))
  }

  /** `addresses` are all callable addresses of the forest, in preorder. */
  ghost predicate ListsCallable(nodes: seq<Node>, addresses: seq<Address>) {
    && (forall i :: 0 <= i < |addresses| ==> Callable(nodes, addresses[i]))
    && (forall i, j :: 0 <= i < j < |addresses| ==> Before(addresses[i], addresses[j]))
    && (forall a :: Callable(nodes, a) ==> a in addresses)
  }

  ghost predicate AreWalks(nodes: seq<Node>, addresses: seq<Address>, paths: seq<Path>) {
    && |paths| == |addresses|
    && forall i :: 0 <= i < |addresses| ==> Reaches(nodes, addresses[i]) && paths[i] == Walk(nodes, addresses[i])
  }

  /** Addresses in the subtree of child `n`, given the addresses below it. */
  function Below(n: nat, addresses: seq<Address>): (r: seq<Address>)
    ensures |r| == |addresses|
  {
    seq(|addresses|, i requires 0 <= i < |addresses| => [n] + addresses[i])
  }

  function AddressesOf(n: nat, node: Node): seq<Address>
    decreases node, 1
  {
    (if node.canBeCalled then [[n]] else []) + Below(n, AddressesOfAll(node.children))
  }

  function AddressesOfAll(nodes: seq<Node>): seq<Address>
    decreases nodes, 0
  {
    if nodes == [] then []
    else AddressesOfAll(nodes[..|nodes| - 1]) + AddressesOf(|nodes| - 1, nodes[|nodes| - 1])
  }

  lemma WalkInPrefix(nodes: seq<Node>, shorter: seq<Node>, a: Address)
    requires |shorter| <= |nodes| && shorter == nodes[..|shorter|] && a != [] && a[0] < |shorter|
    ensures Reaches(nodes, a) <==> Reaches(shorter, a)
    ensures Reaches(nodes, a) ==> Walk(nodes, a) == Walk(shorter, a)
    ensures Callable(nodes, a) <==> Callable(shorter, a)
  {
  }

  lemma CallableBelow(nodes: seq<Node>, a: Address)
    requires |a| > 1 && a[0] < |nodes|
    ensures Reaches(nodes, a) <==> Reaches(nodes[a[0]].children, a[1..])
    ensures Reaches(nodes, a) ==> Walk(nodes, a) == [nodes[a[0]]] + Walk(nodes[a[0]].children, a[1..])
    ensures Callable(nodes, a) <==> Callable(nodes[a[0]].children, a[1..])
  {
  }

  /** The addresses of a forest's last tree: walks of its paths, in preorder, and complete. */
  ghost predicate TreeListed(nodes: seq<Node>, addresses: seq<Address>, paths: seq<Path>)
    requires nodes != []
  {
    && AreWalks(nodes, addresses, paths)
    && (forall i, j :: 0 <= i < j < |addresses| ==> Before(addresses[i], addresses[j]))
    && (forall i :: 0 <= i < |addresses| ==>
          addresses[i] != [] && addresses[i][0] == |nodes| - 1 && Callable(nodes, addresses[i]))
    && (forall a: Address :: a != [] && a[0] == |nodes| - 1 && Callable(nodes, a) ==> a in addresses)
  }

  lemma {:induction false} TreeIsListed(nodes: seq<Node>)
    requires nodes != []
    ensures TreeListed(nodes, AddressesOf(|nodes| - 1, nodes[|nodes| - 1]), PathsOf(nodes[|nodes| - 1]))
    decreases nodes[|nodes| - 1], 1
  {
    hide ListsCallable, AreWalks, TreeListed;
    var n, last := |nodes| - 1, nodes[|nodes| - 1];
    ForestIsListed(last.children);
    LastTreeIsListed(nodes, AddressesOfAll(last.children), PathsOfAll(last.children));
  }

  /** The listing of the children, moved below their parent, lists the proper descendants. */
  lemma DescendantsAreListed(nodes: seq<Node>, inner: seq<Address>, innerPaths: seq<Path>)
    requires nodes != []
    requires ListsCallable(nodes[|nodes| - 1].children, inner) && AreWalks(nodes[|nodes| - 1].children, inner, innerPaths)
    ensures var n, last := |nodes| - 1, nodes[|nodes| - 1];
            && AreWalks(nodes, Below(n, inner), Prefixed(last, innerPaths))
            && (forall i, j :: 0 <= i < j < |inner| ==> Before(Below(n, inner)[i], Below(n, inner)[j]))
            && (forall i :: 0 <= i < |inner| ==> Callable(nodes, Below(n, inner)[i]) && Before([n], Below(n, inner)[i]))
  {
    hide Reaches, Walk, Callable, Before;
    var n := |nodes| - 1;
    forall i | 0 <= i < |inner|
      ensures Callable(nodes, [n] + inner[i]) && Reaches(nodes, [n] + inner[i])
      ensures Walk(nodes, [n] + inner[i]) == [nodes[n]] + innerPaths[i]
      ensures Before([n], [n] + inner[i])
    {
      LowerAddress(nodes, inner[i]);
    }
    forall i, j | 0 <= i < j < |inner| ensures Before([n] + inner[i], [n] + inner[j]) {
      LowerOrder(n, inner[i], inner[j]);
    }
  }

  /** Every callable address of the last tree is the tree's own or comes from its children. */
  lemma TreeIsComplete(nodes: seq<Node>, inner: seq<Address>, a: Address)
    requires nodes != [] && ListsCallable(nodes[|nodes| - 1].children, inner)
    requires a != [] && a[0] == |nodes| - 1 && Callable(nodes, a)
    ensures (nodes[|nodes| - 1].canBeCalled && a == [|nodes| - 1]) || a in Below(|nodes| - 1, inner)
  {
    hide Reaches, Walk, Callable, Before;
    RaiseAddress(nodes, a);
    if |a| > 1 {
      var i :| 0 <= i < |inner| && inner[i] == a[1..];
      assert Below(|nodes| - 1, inner)[i] == [a[0]] + a[1..] == a;
    } else {
      assert a == [a[0]];
    }
  }

  lemma LastTreeIsListed(nodes: seq<Node>, inner: seq<Address>, innerPaths: seq<Path>)
    requires nodes != []
    requires ListsCallable(nodes[|nodes| - 1].children, inner) && AreWalks(nodes[|nodes| - 1].children, inner, innerPaths)
    ensures var n, last := |nodes| - 1, nodes[|nodes| - 1];
            TreeListed(nodes,
                       (if last.canBeCalled then [[n]] else []) + Below(n, inner),
                       (if last.canBeCalled then [[last]] else []) + Prefixed(last, innerPaths))
  {
    DescendantsAreListed(nodes, inner, innerPaths);
    forall a: Address | a != [] && a[0] == |nodes| - 1 && Callable(nodes, a)
      ensures (nodes[|nodes| - 1].canBeCalled && a == [|nodes| - 1]) || a in Below(|nodes| - 1, inner)
    {
      TreeIsComplete(nodes, inner, a);
    }
    hide Reaches, Walk, Callable, Before, ListsCallable, TreeListed, AreWalks, Prefixed;
    OwnComesFirst(nodes, Below(|nodes| - 1, inner), Prefixed(nodes[|nodes| - 1], innerPaths));
  }

  /** A sequence with at most one element put in front. */
  function WithFirst<T>(given: bool, first: T, rest: seq<T>): seq<T> {
    (if given then [first] else []) + rest
  }

  lemma WithFirstAt<T>(given: bool, first: T, rest: seq<T>)
    ensures var all, shift := WithFirst(given, first, rest), if given then 1 else 0;
            && |all| == |rest| + shift && (given ==> all[0] == first)
            && forall i :: shift <= i < |all| ==> all[i] == rest[i - shift]
  {
  }

  lemma WithFirstHas<T>(given: bool, first: T, rest: seq<T>, x: T)
    ensures x in WithFirst(given, first, rest) <==> (given && x == first) || x in rest
  {
  }

  /** The tree's own address, if callable, goes in front of those of its descendants. */
  lemma OwnComesFirst(nodes: seq<Node>, lower: seq<Address>, paths: seq<Path>)
    requires nodes != [] && AreWalks(nodes, lower, paths)
    requires forall i, j :: 0 <= i < j < |lower| ==> Before(lower[i], lower[j])
    requires forall i :: 0 <= i < |lower| ==>
               lower[i] != [] && lower[i][0] == |nodes| - 1 && Callable(nodes, lower[i]) && Before([|nodes| - 1], lower[i])
    requires forall a: Address :: a != [] && a[0] == |nodes| - 1 && Callable(nodes, a) ==>
               (nodes[|nodes| - 1].canBeCalled && a == [|nodes| - 1]) || a in lower
    ensures var n, last := |nodes| - 1, nodes[|nodes| - 1];
            TreeListed(nodes, WithFirst(last.canBeCalled, [n], lower), WithFirst(last.canBeCalled, [last], paths))
  {
    OwnAddress(nodes);
    var n, last := |nodes| - 1, nodes[|nodes| - 1];
    WithFirstAt(last.canBeCalled, [n], lower);
    WithFirstAt(last.canBeCalled, [last], paths);
    hide Reaches, Walk, Callable, Before, WithFirst;
    forall a: Address | a != [] && a[0] == n && Callable(nodes, a) ensures a in WithFirst(last.canBeCalled, [n], lower) {
      WithFirstHas(last.canBeCalled, [n], lower, a);
    }
  }

  lemma OwnAddress(nodes: seq<Node>)
    requires nodes != []
    ensures Reaches(nodes, [|nodes| - 1]) && Walk(nodes, [|nodes| - 1]) == [nodes[|nodes| - 1]]
    ensures Callable(nodes, [|nodes| - 1]) <==> nodes[|nodes| - 1].canBeCalled
  {
  }

  lemma LowerAddress(nodes: seq<Node>, a: Address)
    requires nodes != [] && Callable(nodes[|nodes| - 1].children, a)
    ensures Callable(nodes, [|nodes| - 1] + a) && Reaches(nodes, [|nodes| - 1] + a)
    ensures Walk(nodes, [|nodes| - 1] + a) == [nodes[|nodes| - 1]] + Walk(nodes[|nodes| - 1].children, a)
    ensures Before([|nodes| - 1], [|nodes| - 1] + a)
  {
    assert ([|nodes| - 1] + a)[1..] == a;
    CallableBelow(nodes, [|nodes| - 1] + a);
  }

  lemma LowerOrder(n: nat, a: Address, b: Address)
    requires Before(a, b)
    ensures Before([n] + a, [n] + b)
  {
    assert ([n] + a)[1..] == a && ([n] + b)[1..] == b;
  }

  lemma RaiseAddress(nodes: seq<Node>, a: Address)
    requires nodes != [] && a != [] && a[0] == |nodes| - 1 && Callable(nodes, a)
    ensures (|a| == 1 ==> nodes[|nodes| - 1].canBeCalled)
    ensures |a| > 1 ==> Callable(nodes[|nodes| - 1].children, a[1..])
  {
    if |a| > 1 {
      CallableBelow(nodes, a);
    }
  }

  /** The listing of a forest is exactly its callable nodes, each once, in preorder. */
  lemma {:induction false} ForestIsListed(nodes: seq<Node>)
    ensures ListsCallable(nodes, AddressesOfAll(nodes))
    ensures AreWalks(nodes, AddressesOfAll(nodes), PathsOfAll(nodes))
    decreases nodes, 0
  {
    if nodes != [] {
      var n := |nodes| - 1;
      var shorter := nodes[..n];
      ForestIsListed(shorter);
      TreeIsListed(nodes);
      Combine(nodes, AddressesOfAll(shorter), AddressesOf(n, nodes[n]), PathsOfAll(shorter), PathsOf(nodes[n]));
    }
  }

  lemma Combine(nodes: seq<Node>, left: seq<Address>, right: seq<Address>, leftPaths: seq<Path>, rightPaths: seq<Path>)
    requires nodes != []
    requires ListsCallable(nodes[..|nodes| - 1], left) && AreWalks(nodes[..|nodes| - 1], left, leftPaths)
    requires TreeListed(nodes, right, rightPaths)
    ensures ListsCallable(nodes, left + right) && AreWalks(nodes, left + right, leftPaths + rightPaths)
  {
    hide Walk, Reaches, Callable;
    var shorter := nodes[..|nodes| - 1];
    var all := left + right;
    forall i | 0 <= i < |left|
      ensures left[i] != [] && left[i][0] < |nodes| - 1 && Callable(nodes, left[i]) && Reaches(nodes, left[i])
      ensures Walk(nodes, left[i]) == leftPaths[i]
    {
      CallableStarts(shorter, left[i]);
      WalkInPrefix(nodes, shorter, left[i]);
    }
    forall i, j | 0 <= i < j < |all| ensures Before(all[i], all[j]) {
      if i < |left| <= j {
        assert right[j - |left|][0] == |nodes| - 1;
      }
    }
    forall a | Callable(nodes, a) ensures a in all {
      CallableStarts(nodes, a);
      if a[0] < |nodes| - 1 {
        WalkInPrefix(nodes, shorter, a);
      }
    }
  }

  lemma CallableStarts(nodes: seq<Node>, a: Address)
    requires Callable(nodes, a)
    ensures a != [] && a[0] < |nodes|
  {
  }

  /** Preorder is a strict order, so a listing in preorder has no repetitions. */
  lemma {:induction false} BeforeIsStrict(a: Address)
    ensures !Before(a, a)
  {
    if a != [] {
      BeforeIsStrict(a[1..]);
    }
  }

  /** One path per callable node: no address is listed twice. */
  lemma ListedOnce(nodes: seq<Node>, i: nat, j: nat)
    requires i < j < |AddressesOfAll(nodes)|
    ensures AddressesOfAll(nodes)[i] != AddressesOfAll(nodes)[j]
  {
    ForestIsListed(nodes);
    BeforeIsStrict(AddressesOfAll(nodes)[i]);
  }

  // ---------------------------------------------------------------------------
  // Overloads
  // ---------------------------------------------------------------------------

  /** The parameter a node becomes. */
  function ParamOf(node: Node): ParamInfo {
    ParamInfo(
      node.name,
      if |node.allowedValues| > 0 then EnumValue(node.name + "Enum", node.allowedValues)
      else match node.argumentType
           case Literal => SubCommandValue
           case Int => IntValue
           case Float => FloatValue
           case Boolean => BoolValue
           case Location => Vec3Value
           case Player | Target => StringValue("target")
           case String | PlayerName | Duration | Array | OtherType(_) => StringValue(""),
      false,
      "")
  }

  /** The value that stands for a node: its allowed values as an enum named after it, or the example of its type. */
  ghost predicate StandsFor(value: Value, node: Node) {
    if node.allowedValues != [] then value == EnumValue(node.name + "Enum", node.allowedValues)
    else
      && (value == SubCommandValue <==> node.argumentType == Literal)
      && (value == IntValue <==> node.argumentType == Int)
      && (value == FloatValue <==> node.argumentType == Float)
      && (value == BoolValue <==> node.argumentType == Boolean)
      && (value == Vec3Value <==> node.argumentType == Location)
      && (value == StringValue("target") <==> node.argumentType == Player || node.argumentType == Target)
      && (value == StringValue("") <==>
            || node.argumentType == String || node.argumentType == PlayerName || node.argumentType == Duration
            || node.argumentType == Array || node.argumentType.OtherType?)
  }

  /** A required parameter without suffix, with the node's name and a value that stands for it. */
  ghost predicate IsImage(p: ParamInfo, node: Node) {
    p.name == node.name && !p.optional && p.suffix == "" && StandsFor(p.value, node)
  }

  /** The overload a path becomes, node by node. */
  ghost predicate IsOverloadOf(params: seq<ParamInfo>, path: Path) {
    |params| == |path| && forall i :: 0 <= i < |path| ==> IsImage(params[i], path[i])
  }

  ghost predicate AreOverloadsOf(overloads: seq<seq<ParamInfo>>, paths: seq<Path>) {
    |overloads| == |paths| && forall i :: 0 <= i < |paths| ==> IsOverloadOf(overloads[i], paths[i])
  }

  method BuildParams(path: Path) returns (params: seq<ParamInfo>)
    ensures IsOverloadOf(params, path)
  {
    params := [];
    for k := 0 to |path|
      invariant IsOverloadOf(params, path[..k])
    {
      params := params + [ParamOf(path[k])];
    }
    assert path[..|path|] == path;
  }

  /** Appends one overload for each path, skipping empty parameter lists. */
  method AppendOverloads(before: seq<seq<ParamInfo>>, paths: seq<Path>, ghost done: seq<Path>)
    returns (overloads: seq<seq<ParamInfo>>)
    requires AreOverloadsOf(before, done)
    requires forall i :: 0 <= i < |paths| ==> paths[i] != []
    ensures AreOverloadsOf(overloads, done + paths)
  {
    hide IsOverloadOf;
    overloads := before;
    assert done + paths[..0] == done;
    for m := 0 to |paths|
      invariant AreOverloadsOf(overloads, done + paths[..m])
    {
      var params := BuildParams(paths[m]);
      OverloadLength(params, paths[m]);
      if |params| > 0 {
        overloads := overloads + [params];
      }
      assert done + paths[..m + 1] == done + paths[..m] + [paths[m]];
    }
    assert paths[..|paths|] == paths;
  }

  lemma OverloadLength(params: seq<ParamInfo>, path: Path)
    requires IsOverloadOf(params, path)
    ensures |params| == |path|
  {
  }

  /** Builds one overload for every path below the root. */
  method BuildCommandOverloads(children: seq<Node>) returns (overloads: seq<seq<ParamInfo>>)
    ensures AreOverloadsOf(overloads, PathsOfAll(children))
  {
    hide IsOverloadOf;
    overloads := [];
    for n := 0 to |children|
      invariant AreOverloadsOf(overloads, PathsOfAll(children[..n]))
    {
      assert children[..n + 1][..n] == children[..n];
      var paths := BuildCommandPaths(children[n]);
      PathsAreNotEmpty(children[n]);
      overloads := AppendOverloads(overloads, paths, PathsOfAll(children[..n]));
    }
    assert children[..|children|] == children;
  }

  lemma PathsAreNotEmpty(node: Node)
    ensures forall i :: 0 <= i < |PathsOf(node)| ==> PathsOf(node)[i] != []
  {
  }

  /** The number of callable nodes of a forest. */
  function CallableCount(nodes: seq<Node>): nat {
    if nodes == [] then 0
    else
      var last := nodes[|nodes| - 1];
      CallableCount(nodes[..|nodes| - 1]) + (if last.canBeCalled then 1 else 0) + CallableCount(last.children)
  }

  lemma {:induction false} PathsAreCounted(nodes: seq<Node>)
    ensures |PathsOfAll(nodes)| == CallableCount(nodes)
  {
    if nodes != [] {
      PathsAreCounted(nodes[..|nodes| - 1]);
      PathsAreCounted(nodes[|nodes| - 1].children);
    }
  }

  /** `command` is what loading `c` registers: every walk to a callable node, with the root's own first. */
  ghost predicate LoadedFrom(command: Command, c: EngineCommand) {
    && command.name == c.name && command.description == c.description
    && command.aliases == c.aliases && command.requiresOp == c.requiresOp
    && if c.children == [] then command.params == []
       else
         var rooted := (if c.canBeCalled then [[]] else []) + PathsOfAll(c.children);
         AreOverloadsOf(command.params, if rooted == [] then [[]] else rooted)
  }

  /** Turns one backend command into the registered one. */
  method Load(c: EngineCommand) returns (command: Command)
    ensures LoadedFrom(command, c)
    ensures c.children != [] ==>
              var callable := CallableCount(c.children) + (if c.canBeCalled then 1 else 0);
              |command.params| == if callable == 0 then 1 else callable
  {
    if |c.children| == 0 {
      return Command(c.name, c.description, c.aliases, [], c.requiresOp);
    }
    var overloads := BuildCommandOverloads(c.children);
    PathsAreCounted(c.children);
    if c.canBeCalled {
      overloads := [[]] + overloads;
    }
    if |overloads| == 0 {
      overloads := [[]];
    }
    return Command(c.name, c.description, c.aliases, overloads, c.requiresOp);
  }

  type Registry = map<string, Command>

  /** The last command of that name. */
  ghost predicate LastNamed(commands: seq<EngineCommand>, name: string, k: int) {
    0 <= k < |commands| && commands[k].name == name && forall j :: k < j < |commands| ==> commands[j].name != name
  }

  /** The command was loaded from the last backend command of its name. */
  ghost predicate LoadedLast(command: Command, commands: seq<EngineCommand>, name: string) {
    exists k :: LastNamed(commands, name, k) && LoadedFrom(command, commands[k])
  }

  ghost predicate Unnamed(commands: seq<EngineCommand>, name: string) {
    forall k :: 0 <= k < |commands| ==> commands[k].name != name
  }

  /** Every registered command was loaded from the last backend command of its name, or was there before. */
  ghost predicate Registers(registry: Registry, before: Registry, commands: seq<EngineCommand>) {
    && (forall name :: name in before ==> name in registry)
    && (forall k :: 0 <= k < |commands| ==> commands[k].name in registry)
    && forall name :: name in registry ==>
         if Unnamed(commands, name) then name in before && registry[name] == before[name]
         else LoadedLast(registry[name], commands, name)
  }

  /** Registers the backend's commands; a later command of the same name replaces an earlier one. */
  method LoadFrom(commands: seq<EngineCommand>, before: Registry) returns (registry: Registry)
    ensures Registers(registry, before, commands)
  {
    hide LoadedFrom;
    registry := before;
    for n := 0 to |commands|
      invariant Registers(registry, before, commands[..n])
    {
      var command := Load(commands[n]);
      LoadedName(command, commands[n]);
      RegistersNext(registry, before, commands, n, command);
      registry := registry[command.name := command];
    }
    assert commands[..|commands|] == commands;
  }

  lemma LoadedName(command: Command, c: EngineCommand)
    requires LoadedFrom(command, c)
    ensures command.name == c.name
  {
  }

  lemma RegistersNext(registry: Registry, before: Registry, commands: seq<EngineCommand>, n: nat, command: Command)
    requires n < |commands| && Registers(registry, before, commands[..n])
    requires LoadedFrom(command, commands[n]) && command.name == commands[n].name
    ensures Registers(registry[command.name := command], before, commands[..n + 1])
  {
    hide LoadedFrom, Unnamed, LoadedLast;
    LastIsLast(commands, n, command);
    forall name | name != command.name
      ensures Unnamed(commands[..n + 1], name) <==> Unnamed(commands[..n], name)
    {
      OthersStay(commands, n, name);
    }
    forall name | name in registry && name != command.name && LoadedLast(registry[name], commands[..n], name)
      ensures LoadedLast(registry[name], commands[..n + 1], name)
    {
      OthersStayLast(commands, n, name, registry[name]);
    }
    assert forall k :: 0 <= k < n ==> commands[..n][k] == commands[k];
  }

  lemma LastIsLast(commands: seq<EngineCommand>, n: nat, command: Command)
    requires n < |commands| && LoadedFrom(command, commands[n]) && command.name == commands[n].name
    ensures LoadedLast(command, commands[..n + 1], command.name) && !Unnamed(commands[..n + 1], command.name)
  {
    hide LoadedFrom;
    assert LastNamed(commands[..n + 1], command.name, n);
  }

  lemma OthersStay(commands: seq<EngineCommand>, n: nat, name: string)
    requires n < |commands| && commands[n].name != name
    ensures Unnamed(commands[..n + 1], name) <==> Unnamed(commands[..n], name)
  {
    assert forall k :: 0 <= k < n ==> commands[..n][k] == commands[..n + 1][k];
  }

  lemma OthersStayLast(commands: seq<EngineCommand>, n: nat, name: string, command: Command)
    requires n < |commands| && commands[n].name != name && LoadedLast(command, commands[..n], name)
    ensures LoadedLast(command, commands[..n + 1], name)
  {
    hide LoadedFrom;
    var k :| LastNamed(commands[..n], name, k) && LoadedFrom(command, commands[..n][k]);
    assert LastNamed(commands[..n + 1], name, k);
  }
}
