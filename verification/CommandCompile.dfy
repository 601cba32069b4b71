/**
 The whole way from the backend's command trees to what a client reads, on the nodes of the
 trees: one overload for every walk to a callable node, one parameter for every step.
 */
module CommandCompiling {
  import opened Wrappers
  import opened CommandTrees
  import opened CommandTables
  import opened CommandBuilders
  import opened CommandDecoding

  // ---------------------------------------------------------------------------
  // What a tree asks for
  // ---------------------------------------------------------------------------

  /** The enum of a node: its allowed values, its own name as a sub-command, or the two booleans. */
  function Asks(node: Node): seq<Request> {
    if node.allowedValues != [] then [Request.SoftEnum(node.name + "Enum", node.allowedValues)]
    else if node.argumentType == Literal then [StaticEnum("SubCommand" + node.name, [node.name])]
    else if node.argumentType == Boolean then [StaticEnum("bool", ["true", "false"])]
    else []
  }

  function AsksAlong(path: Path): seq<Request> {
    if path == [] then [] else AsksAlong(path[..|path| - 1]) + Asks(path[|path| - 1])
  }

  function AsksOfPaths(paths: seq<Path>): seq<Request> {
    if paths == [] then [] else AsksOfPaths(paths[..|paths| - 1]) + AsksAlong(paths[|paths| - 1])
  }

  /** The enum of the aliases, then those along every walk to a callable node. */
  function AsksOfTree(c: EngineCommand): seq<Request> {
    (if c.aliases == [] then [] else [StaticEnum(c.name + "Aliases", c.aliases)]) + AsksOfPaths(PathsOfAll(c.children))
  }

  function AsksOfTrees(trees: seq<EngineCommand>): seq<Request> {
    if trees == [] then [] else AsksOfTrees(trees[..|trees| - 1]) + AsksOfTree(trees[|trees| - 1])
  }

  // ---------------------------------------------------------------------------
  // What a client should read
  // ---------------------------------------------------------------------------

  /** The parameter is the node: a required one of its name, an enum or a plain code by its values and type. */
  ghost predicate ReadsAs(codes: ArgCodes, listing: Listing, read: ReadParam, node: Node) {
    && read.name == node.name && !read.optional
    && (read.collapseEnum <==> node.allowedValues == [] && node.argumentType == Boolean)
    && read.kind ==
       if node.allowedValues != [] then Soft(node.name + "Enum", listing(Request.SoftEnum(node.name + "Enum", node.allowedValues)))
       else match node.argumentType
            case Literal => Static("SubCommand" + node.name, listing(StaticEnum("SubCommand" + node.name, [node.name])))
            case Boolean => Static("bool", listing(StaticEnum("bool", ["true", "false"])))
            case Int => Plain(codes.integer)
            case Float => Plain(codes.floating)
            case Location => Plain(codes.position)
            case Player | Target => Plain(codes.target)
            case String | PlayerName | Duration | Array | OtherType(_) => Plain(codes.text)
  }

  ghost predicate ReadsAlong(codes: ArgCodes, listing: Listing, read: seq<ReadParam>, path: Path) {
    |read| == |path| && forall k :: 0 <= k < |path| ==> ReadsAs(codes, listing, read[k], path[k])
  }

  /** One overload for each callable address, in preorder, after an empty one when the command itself is callable. */
  ghost predicate ReadsAt(codes: ArgCodes, listing: Listing, read: seq<seq<ReadParam>>, c: EngineCommand, addresses: seq<Address>) {
    && ListsCallable(c.children, addresses)
    && if addresses == [] && !c.canBeCalled then read == [[]]
       else
         var own := if c.canBeCalled then 1 else 0;
         && |read| == own + |addresses| && (c.canBeCalled ==> read[0] == [])
         && forall i :: 0 <= i < |addresses| ==> ReadsAlong(codes, listing, read[own + i], Walk(c.children, addresses[i]))
  }

  /** The command a client reads is the tree the backend sent. */
  ghost predicate ReadsTree(codes: ArgCodes, listing: Listing, read: ReadCommand, c: EngineCommand) {
    && read.name == c.name && read.description == c.description
    && read.aliases ==
       (if c.aliases == [] then None
        else Some(Static(c.name + "Aliases", listing(StaticEnum(c.name + "Aliases", c.aliases)))))
    && if c.children == [] then read.overloads == []
       else exists addresses :: ReadsAt(codes, listing, read.overloads, c, addresses)
  }

  // ---------------------------------------------------------------------------
  // From a loaded command to its tree
  // ---------------------------------------------------------------------------

  lemma ImageReads(codes: ArgCodes, listing: Listing, p: ParamInfo, node: Node)
    requires IsImage(p, node)
    ensures ReadsAs(codes, listing, MeantParam(codes, listing, p), node)
    ensures RequestsOfParam(codes, p) == Asks(node)
  {
  }

  lemma OverloadReads(codes: ArgCodes, listing: Listing, params: seq<ParamInfo>, path: Path)
    requires IsOverloadOf(params, path)
    ensures ReadsAlong(codes, listing, MeantOverload(codes, listing, params), path)
  {
    hide IsImage, ReadsAs, MeantParam, RequestsOfParam, Asks;
    forall k | 0 <= k < |path| ensures ReadsAs(codes, listing, MeantOverload(codes, listing, params)[k], path[k]) {
      ImageReads(codes, listing, params[k], path[k]);
    }
  }

  lemma {:induction false} OverloadAsks(codes: ArgCodes, params: seq<ParamInfo>, path: Path)
    requires IsOverloadOf(params, path)
    ensures RequestsOfOverload(codes, params) == AsksAlong(path)
  {
    hide IsImage, RequestsOfParam, Asks, ReadsAs, MeantParam;
    if path != [] {
      var n := |path| - 1;
      OverloadAsks(codes, params[..n], path[..n]);
      ImageReads(codes, _ => [], params[n], path[n]);
    }
  }

  lemma {:induction false} OverloadsAsk(codes: ArgCodes, overloads: seq<seq<ParamInfo>>, paths: seq<Path>)
    requires AreOverloadsOf(overloads, paths)
    ensures RequestsOfOverloads(codes, overloads) == AsksOfPaths(paths)
  {
    hide IsOverloadOf, RequestsOfOverload, AsksAlong;
    if paths != [] {
      var n := |paths| - 1;
      OverloadsAsk(codes, overloads[..n], paths[..n]);
      OverloadAsks(codes, overloads[n], paths[n]);
    }
  }

  /** An empty path in front asks for nothing. */
  lemma {:induction false} RootAsksNothing(paths: seq<Path>)
    ensures AsksOfPaths([[]] + paths) == AsksOfPaths(paths)
  {
    var all := [[]] + paths;
    if paths != [] {
      RootAsksNothing(paths[..|paths| - 1]);
      assert all[..|all| - 1] == [[]] + paths[..|paths| - 1];
    } else {
      assert all == [[]] && all[..0] == [];
    }
  }

  lemma CommandAsks(codes: ArgCodes, command: Command, c: EngineCommand)
    requires LoadedFrom(command, c)
    ensures AskedBy(codes, command) == AsksOfTree(c)
  {
    hide AreOverloadsOf, RequestsOfOverloads, AsksOfPaths, PathsOfAll;
    var paths := PathsOfAll(c.children);
    RootAsksNothing(paths);
    NothingAsked(codes);
    if c.children == [] {
      NoPaths();
    } else {
      var rooted := (if c.canBeCalled then [[]] else []) + paths;
      OverloadsAsk(codes, command.params, if rooted == [] then [[]] else rooted);
      if !c.canBeCalled {
        assert rooted == paths;
        assert paths == [] ==> [[]] + paths == [[]];
      }
    }
  }

  lemma NoPaths()
    ensures PathsOfAll([]) == []
  {
  }

  lemma NothingAsked(codes: ArgCodes)
    ensures RequestsOfOverloads(codes, []) == [] && AsksOfPaths([]) == []
  {
  }

  lemma {:induction false} RunAsks(codes: ArgCodes, listed: seq<Command>, trees: seq<EngineCommand>)
    requires |listed| == |trees| && forall i :: 0 <= i < |listed| ==> LoadedFrom(listed[i], trees[i])
    ensures RequestsOf(codes, listed) == AsksOfTrees(trees)
  {
    hide LoadedFrom, AliasRequests, RequestsOfOverloads, AsksOfTree;
    if listed != [] {
      var n := |listed| - 1;
      RunAsks(codes, listed[..n], trees[..n]);
      CommandAsks(codes, listed[n], trees[n]);
      assert RequestsOf(codes, listed) == RequestsOf(codes, listed[..n]) + AskedBy(codes, listed[n]);
    }
  }

  /** Overload by overload, what is read follows the paths. */
  ghost predicate ReadsPaths(codes: ArgCodes, listing: Listing, read: seq<seq<ReadParam>>, paths: seq<Path>) {
    |read| == |paths| && forall i :: 0 <= i < |paths| ==> ReadsAlong(codes, listing, read[i], paths[i])
  }

  lemma OverloadsRead(codes: ArgCodes, listing: Listing, command: Command, paths: seq<Path>)
    requires AreOverloadsOf(command.params, paths)
    ensures ReadsPaths(codes, listing, Meant(codes, listing, command).overloads, paths)
  {
    hide IsOverloadOf, MeantOverload, ReadsAlong, MeantAliases;
    forall i | 0 <= i < |paths| ensures ReadsAlong(codes, listing, Meant(codes, listing, command).overloads[i], paths[i]) {
      OverloadReads(codes, listing, command.params[i], paths[i]);
    }
  }

  /** The paths of a callable root's tree are its own, the empty one, and the walks from its children. */
  lemma PathsReadAt(codes: ArgCodes, listing: Listing, read: seq<seq<ReadParam>>, c: EngineCommand, addresses: seq<Address>, paths: seq<Path>)
    requires ListsCallable(c.children, addresses) && AreWalks(c.children, addresses, paths)
    requires var rooted := (if c.canBeCalled then [[]] else []) + paths;
             ReadsPaths(codes, listing, read, if rooted == [] then [[]] else rooted)
    ensures ReadsAt(codes, listing, read, c, addresses)
  {
    hide ReadsAlong, Walk, ListsCallable, Reaches;
    var own := if c.canBeCalled then 1 else 0;
    var rooted := (if c.canBeCalled then [[]] else []) + paths;
    if c.canBeCalled || rooted == [] {
      ReadsNothing(codes, listing, read[0]);
      assert rooted == [] ==> read == [[]];
    }
    forall i | 0 <= i < |addresses| ensures ReadsAlong(codes, listing, read[own + i], Walk(c.children, addresses[i])) {
      assert rooted[own + i] == paths[i];
    }
  }

  lemma ReadsNothing(codes: ArgCodes, listing: Listing, read: seq<ReadParam>)
    requires ReadsAlong(codes, listing, read, [])
    ensures read == []
  {
  }

  /** What a loaded command means is the tree it was loaded from, whatever options its names are listed with. */
  lemma LoadedReadsTree(codes: ArgCodes, listing: Listing, command: Command, c: EngineCommand)
    requires LoadedFrom(command, c)
    ensures ReadsTree(codes, listing, Meant(codes, listing, command), c)
  {
    hide ReadsAt, AreOverloadsOf, MeantOverload, PathsOfAll, AddressesOfAll, ReadsPaths, ListsCallable, AreWalks;
    if c.children != [] {
      ForestIsListed(c.children);
      var rooted := (if c.canBeCalled then [[]] else []) + PathsOfAll(c.children);
      OverloadsRead(codes, listing, command, if rooted == [] then [[]] else rooted);
      PathsReadAt(codes, listing, Meant(codes, listing, command).overloads, c, AddressesOfAll(c.children), PathsOfAll(c.children));
    }
  }

  // ---------------------------------------------------------------------------
  // The whole way
  // ---------------------------------------------------------------------------

  /** Lists a registry, in whatever order the map yields it. */
  method Commands(registry: Registry) returns (listed: seq<Command>)
    ensures forall c :: c in listed <==> exists name :: name in registry && registry[name] == c
    ensures |listed| == |registry|
  {
    listed := [];
    var rest := registry.Keys;
    while rest != {}
      invariant rest <= registry.Keys && |listed| + |rest| == |registry.Keys|
      invariant forall c :: c in listed <==> exists name :: name in registry && name !in rest && registry[name] == c
    {
      var name :| name in rest;
      listed := listed + [registry[name]];
      rest := rest - {name};
    }
  }

  /** The tree is the backend's last one of its name. */
  ghost predicate IsLast(commands: seq<EngineCommand>, c: EngineCommand) {
    exists k :: LastNamed(commands, c.name, k) && commands[k] == c
  }

  /** The tree a registered command was loaded from. */
  ghost function TreeOf(command: Command, commands: seq<EngineCommand>): (c: EngineCommand)
    requires LoadedLast(command, commands, command.name)
    ensures LoadedFrom(command, c) && IsLast(commands, c) && c.name == command.name
  {
    var k :| LastNamed(commands, command.name, k) && LoadedFrom(command, commands[k]);
    commands[k]
  }

  /** Command by command, the listing was loaded from the trees, each the backend's last of its name. */
  ghost predicate LoadedTrees(listed: seq<Command>, commands: seq<EngineCommand>, trees: seq<EngineCommand>) {
    |trees| == |listed| && forall i :: 0 <= i < |listed| ==> LoadedFrom(listed[i], trees[i]) && IsLast(commands, trees[i])
  }

  lemma ListedTrees(registry: Registry, listed: seq<Command>, commands: seq<EngineCommand>) returns (trees: seq<EngineCommand>)
    requires Registers(registry, map[], commands)
    requires forall c :: c in listed ==> exists name :: name in registry && registry[name] == c
    ensures LoadedTrees(listed, commands, trees)
  {
    hide LoadedFrom, IsLast;
    forall i | 0 <= i < |listed| ensures LoadedLast(listed[i], commands, listed[i].name) {
      assert listed[i] in listed;
      var name :| name in registry && registry[name] == listed[i];
      var k :| LastNamed(commands, name, k) && LoadedFrom(registry[name], commands[k]);
      LoadedName(registry[name], commands[k]);
    }
    hide LoadedLast;
    trees := seq(|listed|, i requires 0 <= i < |listed| => TreeOf(listed[i], commands));
  }

  /** One command of the run: it reads back as registered, and as the tree it was loaded from. */
  lemma CompiledReadsTree(
    codes: ArgCodes, packet: Tables, listed: seq<Command>, trees: seq<EngineCommand>, commands: seq<EngineCommand>, i: nat, encoded: Encoded)
    requires i < |listed| && LoadedTrees(listed, commands, trees)
    requires Refers(codes, InternAll(packet, RequestsOf(codes, listed)), encoded, listed[i])
    ensures ReadsBack(codes, packet, RequestsOf(codes, listed), encoded, listed[i])
    ensures RequestsOf(codes, listed) == AsksOfTrees(trees)
    ensures ReadsTree(codes, FinalListing(packet, AsksOfTrees(trees)), Decode(InternAll(packet, AsksOfTrees(trees)), encoded), trees[i])
  {
    hide LoadedFrom, InternAll, RequestsOf, Refers, Decode, Meant, AskedBy, ReadsTree, AsksOfTrees, NoSuffixes, OptionsAreOwn, FinalListing, IsLast;
    LoadedHasNoSuffixes(listed[i], trees[i]);
    CompiledReadsBack(codes, packet, listed, i, encoded);
    RunAsks(codes, listed, trees);
    LoadedReadsTree(codes, FinalListing(packet, AsksOfTrees(trees)), listed[i], trees[i]);
  }

  /**
   Loads the backend's commands and appends them all to the packet. A client reads every one of
   them as the tree the backend sent last under its name, each enum with the options its name
   was first listed with.
   */
  method CompileLoaded(builder: CommandBuilder, commands: seq<EngineCommand>)
    returns (registry: Registry, listed: seq<Command>, ghost trees: seq<EngineCommand>)
    requires builder.Valid()
    modifies builder
    ensures builder.Valid()
    ensures Registers(registry, map[], commands) && |listed| == |registry|
    ensures forall c :: c in listed <==> exists name :: name in registry && registry[name] == c
    ensures LoadedTrees(listed, commands, trees)
    ensures builder.Current() == InternAll(old(builder.Current()), AsksOfTrees(trees))
    ensures |builder.commands| == old(|builder.commands|) + |listed|
    ensures forall i :: 0 <= i < |listed| ==>
              ReadsBack(builder.codes, old(builder.Current()), RequestsOf(builder.codes, listed),
                        builder.commands[old(|builder.commands|) + i], listed[i])
    ensures forall i :: 0 <= i < |trees| ==>
              ReadsTree(builder.codes, FinalListing(old(builder.Current()), AsksOfTrees(trees)),
                        Decode(builder.Current(), builder.commands[old(|builder.commands|) + i]), trees[i])
  {
    hide CommandBuilder.Valid, InternAll, RequestsOf, Refers, ReadsBack, Extends, Registers, ReadsTree, LoadedTrees, AsksOfTrees, Decode,
      FinalListing;
    ghost var packet, first := builder.Current(), |builder.commands|;
    registry := LoadFrom(commands, map[]);
    listed := Commands(registry);
    trees := ListedTrees(registry, listed, commands);
    builder.AppendCustomCommands(listed);
    TreesLength(listed, commands, trees);
    RunOfTrees(builder.codes, listed, commands, trees);
    forall i | 0 <= i < |listed|
      ensures ReadsBack(builder.codes, packet, RequestsOf(builder.codes, listed), builder.commands[first + i], listed[i])
      ensures ReadsTree(builder.codes, FinalListing(packet, AsksOfTrees(trees)), Decode(builder.Current(), builder.commands[first + i]), trees[i])
    {
      CompiledReadsTree(builder.codes, packet, listed, trees, commands, i, builder.commands[first + i]);
    }
  }

  lemma TreesLength(listed: seq<Command>, commands: seq<EngineCommand>, trees: seq<EngineCommand>)
    requires LoadedTrees(listed, commands, trees)
    ensures |trees| == |listed|
  {
  }

  lemma RunOfTrees(codes: ArgCodes, listed: seq<Command>, commands: seq<EngineCommand>, trees: seq<EngineCommand>)
    requires LoadedTrees(listed, commands, trees)
    ensures RequestsOf(codes, listed) == AsksOfTrees(trees)
  {
    hide LoadedFrom, RequestsOf, AsksOfTrees;
    RunAsks(codes, listed, trees);
  }
}
