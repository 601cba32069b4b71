/**
 Reading the AvailableCommands packet back. A client resolves the indices of a command in
 the final tables; what it reads is proved to be the command that was compiled, and when
 the options it sees are the command's own.
 */
module CommandDecoding {
  import opened Wrappers
  import opened CommandTrees
  import opened CommandTables
  import opened CommandBuilders

  // ---------------------------------------------------------------------------
  // What a client reads
  // ---------------------------------------------------------------------------

  /** The kind of a parameter; an option is None where the packet's value index leads nowhere. */
  datatype Kind =
    | Plain(code: nat)
    | Static(name: string, options: seq<Option<string>>)
    | Soft(name: string, options: seq<Option<string>>)
    | Unreadable

  datatype ReadParam = ReadParam(name: string, kind: Kind, optional: bool, collapseEnum: bool)

  datatype ReadCommand = ReadCommand(name: string, description: string, aliases: Option<Kind>, overloads: seq<seq<ReadParam>>)

  function DecodeStatic(t: Tables, index: nat): Kind {
    if index < |t.enums| then Static(t.enums[index].enumType, OptionsAt(t, index)) else Unreadable
  }

  function DecodeWord(t: Tables, w: Word): Kind {
    if w.flags == {Valid} then Plain(w.field)
    else if w.flags == {Valid, Enum} then DecodeStatic(t, w.field)
    else if w.flags == {Valid, Flag.SoftEnum} && w.field < |t.dynamics| then
      Soft(t.dynamics[w.field].enumType, AllSome(t.dynamics[w.field].values))
    else Unreadable
  }

  function DecodeParam(t: Tables, p: Parameter): ReadParam {
    ReadParam(p.name, DecodeWord(t, p.word), p.optional, p.collapseEnum)
  }

  function DecodeOverload(t: Tables, params: seq<Parameter>): seq<ReadParam> {
    seq(|params|, k requires 0 <= k < |params| => DecodeParam(t, params[k]))
  }

  function Decode(t: Tables, c: Encoded): ReadCommand {
    ReadCommand(c.name, c.description,
                if c.aliases.None? then None else Some(DecodeStatic(t, c.aliases.value)),
                seq(|c.overloads|, j requires 0 <= j < |c.overloads| => DecodeOverload(t, c.overloads[j])))
  }

  // ---------------------------------------------------------------------------
  // What a command means, given the options each enum name is listed with
  // ---------------------------------------------------------------------------

  type Listing = Request -> seq<Option<string>>

  function KindFor(listing: Listing, r: Request): Kind {
    match r
    case StaticEnum(name, _) => Static(name, listing(r))
    case SoftEnum(name, _) => Soft(name, listing(r))
    case Suffix(_) => Unreadable
  }

  function MeantParam(codes: ArgCodes, listing: Listing, p: ParamInfo): ReadParam {
    var (code, definition) := ValueToParamType(codes, p);
    ReadParam(p.name, if definition.None? then Plain(code) else KindFor(listing, definition.value), p.optional, p.value.BoolValue?)
  }

  function MeantOverload(codes: ArgCodes, listing: Listing, params: seq<ParamInfo>): seq<ReadParam> {
    seq(|params|, k requires 0 <= k < |params| => MeantParam(codes, listing, params[k]))
  }

  function MeantAliases(listing: Listing, c: Command): Option<Kind> {
    if c.aliases == [] then None else Some(KindFor(listing, StaticEnum(c.name + "Aliases", c.aliases)))
  }

  function Meant(codes: ArgCodes, listing: Listing, c: Command): ReadCommand {
    ReadCommand(c.name, c.description, MeantAliases(listing, c),
                seq(|c.params|, j requires 0 <= j < |c.params| => MeantOverload(codes, listing, c.params[j])))
  }

  /** Everything a command asks for: its alias enum and the enums of its parameters. */
  function AskedBy(codes: ArgCodes, c: Command): seq<Request> {
    AliasRequests(c) + RequestsOfOverloads(codes, c.params)
  }

  ghost predicate NoSuffixes(c: Command) {
    forall j, k :: 0 <= j < |c.params| && 0 <= k < |c.params[j]| ==> c.params[j][k].suffix == ""
  }

  /** Loading sets no suffix on any parameter. */
  lemma LoadedHasNoSuffixes(command: Command, c: EngineCommand)
    requires LoadedFrom(command, c)
    ensures NoSuffixes(command)
  {
    hide PathsOf, PathsOfAll;
    if c.children != [] {
      var rooted := (if c.canBeCalled then [[]] else []) + PathsOfAll(c.children);
      var paths := if rooted == [] then [[]] else rooted;
      forall j, k | 0 <= j < |command.params| && 0 <= k < |command.params[j]| ensures command.params[j][k].suffix == "" {
        assert IsOverloadOf(command.params[j], paths[j]);
        assert IsImage(command.params[j][k], paths[j][k]);
      }
    }
  }

  // ---------------------------------------------------------------------------
  // One parameter
  // ---------------------------------------------------------------------------

  lemma OrWithZero(a: nat)
    ensures BitOr(0, a) == a && BitOr(a, 0) == a
  {
  }

  lemma OptionsCode(codes: ArgCodes, p: ParamInfo)
    ensures ValueToParamType(codes, p).1.Some? ==> ValueToParamType(codes, p).0 == 0
  {
  }

  /** The options the tables list for a name they know. */
  function ListedIn(t: Tables): Listing {
    (r: Request) => if !r.Suffix? && Known(t, r) then Listed(t, r) else []
  }

  lemma StaticReadsBack(t: Tables, r: Request)
    requires r.StaticEnum? && Known(t, r)
    ensures DecodeStatic(t, IndexOf(t, r)) == KindFor(ListedIn(t), r)
  {
    assert EnumNames(t.enums)[IndexOf(t, r)] == r.name;
  }

  lemma SoftReadsBack(t: Tables, r: Request)
    requires r.SoftEnum? && Known(t, r)
    ensures IndexOf(t, r) < |t.dynamics|
    ensures Soft(t.dynamics[IndexOf(t, r)].enumType, AllSome(t.dynamics[IndexOf(t, r)].values)) == KindFor(ListedIn(t), r)
  {
    assert DynamicNames(t.dynamics)[IndexOf(t, r)] == r.name;
  }

  /** A parameter without suffix reads back as itself, with the options the tables list. */
  lemma ParamReadsBack(codes: ArgCodes, t: Tables, encoded: Parameter, p: ParamInfo)
    requires ParamRefers(codes, t, encoded, p) && p.suffix == ""
    ensures DecodeParam(t, encoded) == MeantParam(codes, ListedIn(t), p)
  {
    hide BitOr, ListedIn, IndexOf, Known, Listed, OptionsAt;
    var (code, definition) := ValueToParamType(codes, p);
    DefinitionIsNoSuffix(codes, p);
    if definition.Some? {
      var r := definition.value;
      assert RequestsOfParam(codes, p)[0] == r;
      OptionsCode(codes, p);
      OrWithZero(IndexOf(t, r));
      if r.StaticEnum? {
        StaticReadsBack(t, r);
        assert {Valid} + {Enum} == {Valid, Enum};
      } else {
        SoftReadsBack(t, r);
        assert {Valid} + {Flag.SoftEnum} == {Valid, Flag.SoftEnum};
        assert Enum !in {Valid, Flag.SoftEnum};
      }
    }
  }

  lemma ReadsBackAsListed(codes: ArgCodes, t: Tables, encoded: Encoded, c: Command)
    requires Refers(codes, t, encoded, c) && NoSuffixes(c)
    ensures Decode(t, encoded) == Meant(codes, ListedIn(t), c)
  {
    hide ParamRefers, DecodeParam, MeantParam, ListedIn, Known, IndexOf, DecodeStatic;
    if c.aliases != [] {
      StaticReadsBack(t, StaticEnum(c.name + "Aliases", c.aliases));
    }
    forall j | 0 <= j < |c.params|
      ensures DecodeOverload(t, encoded.overloads[j]) == MeantOverload(codes, ListedIn(t), c.params[j])
    {
      assert OverloadRefers(codes, t, encoded.overloads[j], c.params[j]);
      forall k | 0 <= k < |c.params[j]|
        ensures DecodeParam(t, encoded.overloads[j][k]) == MeantParam(codes, ListedIn(t), c.params[j][k])
      {
        ParamReadsBack(codes, t, encoded.overloads[j][k], c.params[j][k]);
      }
    }
  }

  // ---------------------------------------------------------------------------
  // Which options a name ends up with
  // ---------------------------------------------------------------------------

  /** A command's own options. */
  function Own(r: Request): seq<Option<string>> {
    if r.Suffix? then [] else AllSome(r.options)
  }

  /**
   The options a name is listed with after a run of requests: those of the packet's own entry,
   or those of the first request for it.
   */
  ghost function FinalOptions(packet: Tables, requests: seq<Request>, r: Request): seq<Option<string>> {
    if r.Suffix? then []
    else if Known(packet, r) then
      InternAllKeeps(packet, requests, r);
      Listed(InternAll(packet, requests), r)
    else if Asked(requests, r) then AllSome(FirstAsked(requests, r).options)
    else []
  }

  ghost function FinalListing(packet: Tables, requests: seq<Request>): Listing {
    (r: Request) => FinalOptions(packet, requests, r)
  }

  /** A requested name is listed in the final tables with its final options. */
  lemma FinalIsListed(packet: Tables, requests: seq<Request>, r: Request)
    requires r in requests
    ensures FinalOptions(packet, requests, r) == ListedIn(InternAll(packet, requests))(r)
  {
    hide InternAll, Known, Listed, FirstAsked, AllSome;
    var n :| 0 <= n < |requests| && requests[n] == r;
    assert Same(requests[n], r);
    InternAllKeeps(packet, requests, r);
    if !r.Suffix? && !Known(packet, r) {
      EntryKeepsFirstOptions(packet, requests, r);
    }
  }

  /** The options of an entry of the packet whose value indices lead somewhere stay what they were. */
  lemma PacketOptionsStay(packet: Tables, requests: seq<Request>, r: Request)
    requires !r.Suffix? && Known(packet, r)
    requires r.StaticEnum? ==> forall v :: v in packet.enums[IndexOf(packet, r)].valueIndices ==> v < |packet.values|
    ensures FinalOptions(packet, requests, r) == Listed(packet, r)
  {
    hide InternAll, Known;
    InternAllKeeps(packet, requests, r);
    var final, n := InternAll(packet, requests), IndexOf(packet, r);
    if r.StaticEnum? {
      assert final.enums[n] == packet.enums[n];
      forall i | 0 <= i < |packet.enums[n].valueIndices| ensures OptionsAt(final, n)[i] == OptionsAt(packet, n)[i] {
        assert packet.enums[n].valueIndices[i] in packet.enums[n].valueIndices;
      }
      assert OptionsAt(final, n) == OptionsAt(packet, n);
    } else {
      assert final.dynamics[n] == packet.dynamics[n];
    }
  }

  lemma SameOptions(a: seq<string>, b: seq<string>)
    ensures AllSome(a) == AllSome(b) <==> a == b
  {
    if AllSome(a) == AllSome(b) {
      assert |AllSome(a)| == |a| && |AllSome(b)| == |b|;
      forall i | 0 <= i < |a| ensures a[i] == b[i] {
        assert AllSome(a)[i] == Some(a[i]) && AllSome(b)[i] == Some(b[i]);
      }
    }
  }

  /** A name the packet does not have keeps a requester's options exactly when the first request had the same ones. */
  lemma OwnIffFirst(packet: Tables, requests: seq<Request>, r: Request)
    requires r in requests && !r.Suffix? && !Known(packet, r)
    ensures Asked(requests, r)
    ensures FinalOptions(packet, requests, r) == Own(r) <==> FirstAsked(requests, r).options == r.options
  {
    hide Known, FirstAsked, AllSome;
    var n :| 0 <= n < |requests| && requests[n] == r;
    assert Same(requests[n], r);
    SameOptions(FirstAsked(requests, r).options, r.options);
  }

  // ---------------------------------------------------------------------------
  // The meaning of a command is fixed by the options of what it asks for
  // ---------------------------------------------------------------------------

  ghost predicate Agree(f: Listing, g: Listing, requests: seq<Request>) {
    forall r :: r in requests ==> f(r) == g(r)
  }

  lemma AgreeOnNothing(f: Listing, g: Listing)
    ensures Agree(f, g, [])
  {
  }

  lemma AgreeOnBoth(f: Listing, g: Listing, a: seq<Request>, b: seq<Request>)
    ensures Agree(f, g, a + b) <==> Agree(f, g, a) && Agree(f, g, b)
  {
    assert forall r :: r in a + b <==> r in a || r in b;
  }

  lemma LastApart<T>(a: seq<T>, x: T, b: seq<T>, y: T)
    requires |a| == |b|
    ensures a + [x] == b + [y] <==> a == b && x == y
  {
    if a + [x] == b + [y] {
      assert a == (a + [x])[..|a|] && b == (b + [y])[..|b|];
      assert x == (a + [x])[|a|] && y == (b + [y])[|b|];
    }
  }

  lemma ParamMeaning(codes: ArgCodes, f: Listing, g: Listing, p: ParamInfo)
    requires p.suffix == ""
    ensures MeantParam(codes, f, p) == MeantParam(codes, g, p) <==> Agree(f, g, RequestsOfParam(codes, p))
  {
    DefinitionIsNoSuffix(codes, p);
    hide ValueToParamType;
    var definition := ValueToParamType(codes, p).1;
    if definition.Some? {
      assert RequestsOfParam(codes, p) == [definition.value];
      assert definition.value in RequestsOfParam(codes, p);
    }
  }

  lemma {:induction false} OverloadMeaning(codes: ArgCodes, f: Listing, g: Listing, params: seq<ParamInfo>)
    requires forall k :: 0 <= k < |params| ==> params[k].suffix == ""
    ensures MeantOverload(codes, f, params) == MeantOverload(codes, g, params) <==>
              Agree(f, g, RequestsOfOverload(codes, params))
  {
    hide MeantParam, RequestsOfParam, Agree;
    if params == [] {
      AgreeOnNothing(f, g);
    } else {
      var n := |params| - 1;
      OverloadMeaning(codes, f, g, params[..n]);
      ParamMeaning(codes, f, g, params[n]);
      assert MeantOverload(codes, f, params) == MeantOverload(codes, f, params[..n]) + [MeantParam(codes, f, params[n])];
      assert MeantOverload(codes, g, params) == MeantOverload(codes, g, params[..n]) + [MeantParam(codes, g, params[n])];
      LastApart(MeantOverload(codes, f, params[..n]), MeantParam(codes, f, params[n]),
                MeantOverload(codes, g, params[..n]), MeantParam(codes, g, params[n]));
      AgreeOnBoth(f, g, RequestsOfOverload(codes, params[..n]), RequestsOfParam(codes, params[n]));
    }
  }

  function MeantOverloads(codes: ArgCodes, listing: Listing, overloads: seq<seq<ParamInfo>>): seq<seq<ReadParam>> {
    seq(|overloads|, j requires 0 <= j < |overloads| => MeantOverload(codes, listing, overloads[j]))
  }

  lemma {:induction false} OverloadsMeaning(codes: ArgCodes, f: Listing, g: Listing, overloads: seq<seq<ParamInfo>>)
    requires forall j, k :: 0 <= j < |overloads| && 0 <= k < |overloads[j]| ==> overloads[j][k].suffix == ""
    ensures MeantOverloads(codes, f, overloads) == MeantOverloads(codes, g, overloads) <==>
              Agree(f, g, RequestsOfOverloads(codes, overloads))
  {
    hide MeantOverload, RequestsOfOverload, Agree;
    if overloads == [] {
      AgreeOnNothing(f, g);
    } else {
      var n := |overloads| - 1;
      OverloadsMeaning(codes, f, g, overloads[..n]);
      OverloadMeaning(codes, f, g, overloads[n]);
      assert MeantOverloads(codes, f, overloads) == MeantOverloads(codes, f, overloads[..n]) + [MeantOverload(codes, f, overloads[n])];
      assert MeantOverloads(codes, g, overloads) == MeantOverloads(codes, g, overloads[..n]) + [MeantOverload(codes, g, overloads[n])];
      LastApart(MeantOverloads(codes, f, overloads[..n]), MeantOverload(codes, f, overloads[n]),
                MeantOverloads(codes, g, overloads[..n]), MeantOverload(codes, g, overloads[n]));
      AgreeOnBoth(f, g, RequestsOfOverloads(codes, overloads[..n]), RequestsOfOverload(codes, overloads[n]));
    }
  }

  /** Two listings give a command the same meaning exactly when they agree on everything it asks for. */
  lemma CommandMeaning(codes: ArgCodes, f: Listing, g: Listing, c: Command)
    requires NoSuffixes(c)
    ensures Meant(codes, f, c) == Meant(codes, g, c) <==> Agree(f, g, AskedBy(codes, c))
  {
    hide RequestsOfOverloads, MeantOverload;
    OverloadsMeaning(codes, f, g, c.params);
    assert Meant(codes, f, c).overloads == MeantOverloads(codes, f, c.params);
    assert Meant(codes, g, c).overloads == MeantOverloads(codes, g, c.params);
    AgreeOnBoth(f, g, AliasRequests(c), RequestsOfOverloads(codes, c.params));
    if c.aliases != [] {
      assert AliasRequests(c)[0] == StaticEnum(c.name + "Aliases", c.aliases);
    }
  }

  lemma {:induction false} RunAsksForCommand(codes: ArgCodes, registered: seq<Command>, i: nat)
    requires i < |registered|
    ensures forall r :: r in AskedBy(codes, registered[i]) ==> r in RequestsOf(codes, registered)
  {
    hide RequestsOfOverloads, AliasRequests;
    if i < |registered| - 1 {
      RunAsksForCommand(codes, registered[..|registered| - 1], i);
    }
  }

  // ---------------------------------------------------------------------------
  // The whole way round
  // ---------------------------------------------------------------------------

  /** The command's enums and aliases are, in the final tables, listed with the command's own options. */
  ghost predicate OptionsAreOwn(codes: ArgCodes, packet: Tables, requests: seq<Request>, c: Command) {
    forall r :: r in AskedBy(codes, c) ==> FinalOptions(packet, requests, r) == Own(r)
  }

  /**
   Decoding the command in the final tables gives back its name, description, parameter names
   and kinds, enum names and alias enum, each name with its final options; and it gives back
   exactly the command's own options exactly when the final ones are its own.
   */
  ghost predicate ReadsBack(codes: ArgCodes, packet: Tables, requests: seq<Request>, encoded: Encoded, c: Command) {
    var read := Decode(InternAll(packet, requests), encoded);
    && read == Meant(codes, FinalListing(packet, requests), c)
    && (read == Meant(codes, Own, c) <==> OptionsAreOwn(codes, packet, requests, c))
  }

  /** Every command of a run reads back. */
  lemma CompiledReadsBack(codes: ArgCodes, packet: Tables, registered: seq<Command>, i: nat, encoded: Encoded)
    requires i < |registered| && NoSuffixes(registered[i])
    requires Refers(codes, InternAll(packet, RequestsOf(codes, registered)), encoded, registered[i])
    ensures ReadsBack(codes, packet, RequestsOf(codes, registered), encoded, registered[i])
  {
    hide InternAll, RequestsOf, AskedBy, Meant, Refers, Decode, NoSuffixes, FinalOptions;
    var requests, c := RequestsOf(codes, registered), registered[i];
    var final := InternAll(packet, requests);
    ReadsBackAsListed(codes, final, encoded, c);
    RunAsksForCommand(codes, registered, i);
    forall r | r in AskedBy(codes, c) ensures FinalListing(packet, requests)(r) == ListedIn(final)(r) {
      FinalIsListed(packet, requests, r);
    }
    CommandMeaning(codes, FinalListing(packet, requests), ListedIn(final), c);
    CommandMeaning(codes, FinalListing(packet, requests), Own, c);
  }

  // ---------------------------------------------------------------------------
  // Two commands, one enum name
  // ---------------------------------------------------------------------------

  /** A command with one callable parameter `mode` that takes the given values. */
  function ModeCommand(name: string, values: seq<string>): EngineCommand {
    EngineCommand(name, "", [], [Node("mode", String, values, [], true)], false, false)
  }

  function ModeParam(values: seq<string>): ParamInfo {
    ParamInfo("mode", EnumValue("mode" + "Enum", values), false, "")
  }

  function ModeLoaded(name: string, values: seq<string>): Command {
    Command(name, "", [], [[ModeParam(values)]], false)
  }

  lemma ModeIsLoaded(name: string, values: seq<string>)
    requires values != []
    ensures LoadedFrom(ModeLoaded(name, values), ModeCommand(name, values))
  {
    var node := Node("mode", String, values, [], true);
    assert [node][..0] == [];
    assert PathsOf(node) == [[node]];
    assert PathsOfAll([node]) == [[node]];
    assert IsOverloadOf([ModeParam(values)], [node]);
  }

  lemma ModeRequests(codes: ArgCodes, name: string, values: seq<string>)
    ensures AskedBy(codes, ModeLoaded(name, values)) == [Request.SoftEnum("mode" + "Enum", values)]
  {
    var p := ModeParam(values);
    assert RequestsOfParam(codes, p) == [Request.SoftEnum("mode" + "Enum", values)];
    assert [p][..0] == [] && [[p]][..0] == [];
    assert RequestsOfOverload(codes, [p]) == [] + RequestsOfParam(codes, p);
    assert RequestsOfOverloads(codes, [[p]]) == [] + RequestsOfOverload(codes, [p]);
  }

  lemma TwoCommandsAsk(codes: ArgCodes, a: Command, b: Command)
    ensures RequestsOf(codes, [a, b]) == AskedBy(codes, a) + AskedBy(codes, b)
  {
    hide AliasRequests, RequestsOfOverloads;
    assert [a, b][..1] == [a] && [a][..0] == [];
    assert RequestsOf(codes, [a]) == [] + AliasRequests(a) + RequestsOfOverloads(codes, a.params);
    assert RequestsOf(codes, [a, b]) == RequestsOf(codes, [a]) + AliasRequests(b) + RequestsOfOverloads(codes, b.params);
  }

  /**
   It happens: of two loaded commands whose parameters share a name, the second reads back with
   the values of the first, whatever packet they are appended to, unless it has the enum already.
   */
  lemma SecondReadsFirstsValues(codes: ArgCodes, packet: Tables, encoded: Encoded)
    requires !Known(packet, Request.SoftEnum("mode" + "Enum", ["on"]))
    requires Refers(codes, InternAll(packet, RequestsOf(codes, [ModeLoaded("first", ["on"]), ModeLoaded("second", ["off"])])),
                    encoded, ModeLoaded("second", ["off"]))
    ensures LoadedFrom(ModeLoaded("first", ["on"]), ModeCommand("first", ["on"]))
    ensures LoadedFrom(ModeLoaded("second", ["off"]), ModeCommand("second", ["off"]))
    ensures var requests := RequestsOf(codes, [ModeLoaded("first", ["on"]), ModeLoaded("second", ["off"])]);
            && FinalOptions(packet, requests, Request.SoftEnum("mode" + "Enum", ["off"])) == AllSome(["on"])
            && Decode(InternAll(packet, requests), encoded) != Meant(codes, Own, ModeLoaded("second", ["off"]))
  {
    hide InternAll, Refers, Decode, Meant, Known, LoadedFrom;
    var first, second := ModeLoaded("first", ["on"]), ModeLoaded("second", ["off"]);
    var asked := Request.SoftEnum("mode" + "Enum", ["off"]);
    ModeIsLoaded("first", ["on"]);
    ModeIsLoaded("second", ["off"]);
    LoadedHasNoSuffixes(second, ModeCommand("second", ["off"]));
    ModeRequests(codes, "first", ["on"]);
    ModeRequests(codes, "second", ["off"]);
    TwoCommandsAsk(codes, first, second);
    CompiledReadsBack(codes, packet, [first, second], 1, encoded);
    var requests := RequestsOf(codes, [first, second]);
    hide RequestsOf, AskedBy, NoSuffixes;
    SameKnown(packet, asked, Request.SoftEnum("mode" + "Enum", ["on"]));
    assert requests == [Request.SoftEnum("mode" + "Enum", ["on"]), asked];
    assert Same(requests[0], asked);
    assert FirstAsked(requests, asked) == requests[0];
    assert AllSome(["on"])[0] != AllSome(["off"])[0];
    assert asked in AskedBy(codes, second);
  }

  // ---------------------------------------------------------------------------
  // Suffixes share the field
  // ---------------------------------------------------------------------------

  /** Every bit of `a` is set in `b`. */
  predicate Within(a: nat, b: nat) {
    a == 0 || (a % 2 <= b % 2 && Within(a / 2, b / 2))
  }

  lemma {:induction false} OrAbsorbs(a: nat, b: nat)
    ensures BitOr(a, b) == b <==> Within(a, b)
    ensures BitOr(b, a) == b <==> Within(a, b)
    decreases a + b
  {
    if a != 0 {
      OrAbsorbs(a / 2, b / 2);
    }
  }

  lemma {:induction false} WithinEachOther(a: nat, b: nat)
    ensures Within(a, b) && Within(b, a) <==> a == b
    decreases a + b
  {
    if a != 0 || b != 0 {
      WithinEachOther(a / 2, b / 2);
    }
  }

  /**
   With a suffix, one field holds the or of two indices, or of a type code and an index. Either
   reads back exactly when the other has no bit of its own, and both only when they are equal.
   */
  lemma SuffixSharesTheField(codes: ArgCodes, t: Tables, encoded: Parameter, p: ParamInfo)
    requires ParamRefers(codes, t, encoded, p) && p.suffix != ""
    ensures var (code, definition) := ValueToParamType(codes, p);
            && Known(t, Suffix(p.suffix)) && (definition.Some? ==> Known(t, definition.value))
            && var typed := if definition.Some? then IndexOf(t, definition.value) else code;
               var suffix := IndexOf(t, Suffix(p.suffix));
               && (encoded.word.field == suffix <==> Within(typed, suffix))
               && (encoded.word.field == typed <==> Within(suffix, typed))
               && (encoded.word.field == suffix == typed <==> suffix == typed)
  {
    hide BitOr, Within, ValueToParamType, IndexOf, Known;
    var (code, definition) := ValueToParamType(codes, p);
    var needed := RequestsOfParam(codes, p);
    assert needed[|needed| - 1] == Suffix(p.suffix);
    if definition.Some? {
      assert needed[0] == definition.value;
      OptionsCode(codes, p);
      OrWithZero(IndexOf(t, definition.value));
    }
    var typed := if definition.Some? then IndexOf(t, definition.value) else code;
    var suffix := IndexOf(t, Suffix(p.suffix));
    OrAbsorbs(typed, suffix);
    OrAbsorbs(suffix, typed);
    WithinEachOther(typed, suffix);
  }

  function Suffixed(enumName: string, suffix: string): ParamInfo {
    ParamInfo("p", EnumValue(enumName, []), false, suffix)
  }

  const EMPTY := Tables([], [], [], [])

  /** Two soft enums, and the suffix that both of their parameters have. */
  function TwoEnums(a: string, b: string, s: string): Tables {
    Tables([], [], [DynamicEnum(a, []), DynamicEnum(b, [])], [s])
  }

  lemma InternNext(t: Tables, requests: seq<Request>, r: Request)
    ensures InternAll(t, requests + [r]) == Intern(InternAll(t, requests), r)
  {
    hide Intern;
    assert (requests + [r])[..|requests|] == requests;
  }

  /** Four requests in a row, the tables after each given. */
  lemma FourInterned(t: Tables, r: seq<Request>, one: Tables, two: Tables, three: Tables, four: Tables)
    requires |r| == 4 && Intern(t, r[0]) == one && Intern(one, r[1]) == two && Intern(two, r[2]) == three && Intern(three, r[3]) == four
    ensures InternAll(t, r) == four
  {
    hide Intern, InternAll;
    InternNothing(t);
    InternNext(t, [], r[0]);
    InternNext(t, r[..1], r[1]);
    InternNext(t, r[..2], r[2]);
    InternNext(t, r[..3], r[3]);
    assert [] + [r[0]] == r[..1] && r[..1] + [r[1]] == r[..2] && r[..2] + [r[2]] == r[..3] && r[..3] + [r[3]] == r;
  }

  lemma TwoEnumsInterned(a: string, b: string, s: string)
    requires a != b
    ensures InternAll(EMPTY, [Request.SoftEnum(a, []), Suffix(s), Request.SoftEnum(b, []), Suffix(s)]) == TwoEnums(a, b, s)
  {
    hide InternAll, InternValues;
    var r := [Request.SoftEnum(a, []), Suffix(s), Request.SoftEnum(b, []), Suffix(s)];
    var one, two := Tables([], [], [DynamicEnum(a, [])], []), Tables([], [], [DynamicEnum(a, [])], [s]);
    assert DynamicNames([DynamicEnum(a, [])]) == [a];
    FourInterned(EMPTY, r, one, two, TwoEnums(a, b, s), TwoEnums(a, b, s));
  }

  lemma TwoEnumsIndices(a: string, b: string, s: string)
    ensures Known(TwoEnums(a, b, s), Request.SoftEnum(b, [])) && IndexOf(TwoEnums(a, b, s), Request.SoftEnum(b, [])) == 1
    ensures Known(TwoEnums(a, b, s), Suffix(s)) && IndexOf(TwoEnums(a, b, s), Suffix(s)) == 0
  {
    assert DynamicNames(TwoEnums(a, b, s).dynamics) == [a, b];
  }

  lemma SuffixedAsk(codes: ArgCodes, a: string, b: string, s: string)
    requires a != "" && b != "" && s != ""
    ensures RequestsOfOverload(codes, [Suffixed(a, s), Suffixed(b, s)])
         == [Request.SoftEnum(a, []), Suffix(s), Request.SoftEnum(b, []), Suffix(s)]
  {
    var p, q := Suffixed(a, s), Suffixed(b, s);
    assert RequestsOfParam(codes, p) == [Request.SoftEnum(a, []), Suffix(s)];
    assert RequestsOfParam(codes, q) == [Request.SoftEnum(b, []), Suffix(s)];
    assert [p, q][..1] == [p] && [p][..0] == [];
    assert RequestsOfOverload(codes, [p]) == [] + RequestsOfParam(codes, p);
    assert RequestsOfOverload(codes, [p, q]) == RequestsOfOverload(codes, [p]) + RequestsOfParam(codes, q);
  }

  /** An overload of two suffixed enums: the second's field reads as entry 1, its suffix is entry 0. */
  lemma SuffixCanBeHidden(codes: ArgCodes, a: string, b: string, s: string, encoded: Parameter)
    requires a != "" && b != "" && a != b && s != ""
    requires ParamRefers(codes, InternAll(EMPTY, RequestsOfOverload(codes, [Suffixed(a, s), Suffixed(b, s)])), encoded, Suffixed(b, s))
    ensures var final := InternAll(EMPTY, RequestsOfOverload(codes, [Suffixed(a, s), Suffixed(b, s)]));
            Known(final, Suffix(s)) && IndexOf(final, Suffix(s)) == 0 && encoded.word.field == 1
  {
    SuffixedAsk(codes, a, b, s);
    TwoEnumsInterned(a, b, s);
    TwoEnumsIndices(a, b, s);
    assert Within(0, 1);
    hide InternAll, RequestsOfOverload, IndexOf, Known, TwoEnums, ParamRefers, Within, BitOr;
    SuffixSharesTheField(codes, TwoEnums(a, b, s), encoded, Suffixed(b, s));
  }
}
