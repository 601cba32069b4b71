/**
 Compiling registered commands into the AvailableCommands packet. The builder keeps index
 maps beside the growing tables; it is proved to emit references that are right in the
 final tables, whatever was interned later.
 */
module CommandBuilders {
  import opened Wrappers
  import opened CommandTrees
  import opened CommandTables

  // ---------------------------------------------------------------------------
  // Parameters on the wire
  // ---------------------------------------------------------------------------

  /** The flag bits of a parameter type; the rest of the word is its low field. */
  datatype Flag = Valid | Enum | SoftEnum | Suffixed

  /** A parameter type word: flags, and the bits below them. */
  datatype Word = Word(flags: set<Flag>, field: nat)

  /** The type codes of the protocol, kept symbolic. */
  datatype ArgCodes = ArgCodes(
    integer: nat, floating: nat, target: nat, text: nat, rawText: nat, position: nat, value: nat)

  datatype Parameter = Parameter(name: string, word: Word, optional: bool, collapseEnum: bool)

  /** A command of the packet; without aliases it carries the sentinel offset, here None. */
  datatype Encoded = Encoded(name: string, description: string, aliases: Option<nat>, overloads: seq<seq<Parameter>>)

  /** Bitwise or. */
  function BitOr(a: nat, b: nat): nat
    decreases a + b
  {
    if a == 0 then b
    else if b == 0 then a
    else 2 * BitOr(a / 2, b / 2) + (if a % 2 == 1 || b % 2 == 1 then 1 else 0)
  }

  /** The k-th binary digit. */
  predicate Bit(n: nat, k: nat) {
    if k == 0 then n % 2 == 1 else Bit(n / 2, k - 1)
  }

  lemma {:induction false} BitsOfZero(k: nat)
    ensures !Bit(0, k)
  {
    if k > 0 {
      BitsOfZero(k - 1);
    }
  }

  /** Digit by digit: set in the result exactly when set in either number. */
  lemma {:induction false} BitOrIsBitwise(a: nat, b: nat, k: nat)
    ensures Bit(BitOr(a, b), k) <==> Bit(a, k) || Bit(b, k)
  {
    BitsOfZero(k);
    if a != 0 && b != 0 && k > 0 {
      BitOrIsBitwise(a / 2, b / 2, k - 1);
    }
  }

  /** The code of a value and the enum it defines, if any. */
  function ValueToParamType(codes: ArgCodes, p: ParamInfo): (nat, Option<Request>) {
    match p.value
    case IntValue => (codes.integer, None)
    case FloatValue => (codes.floating, None)
    case StringValue(text) => (if text == "target" then codes.target else codes.text, None)
    case VarargsValue => (codes.rawText, None)
    case BoolValue => (0, Some(StaticEnum("bool", ["true", "false"])))
    case Vec3Value => (codes.position, None)
    case SubCommandValue => (0, Some(StaticEnum("SubCommand" + p.name, [p.name])))
    case EnumValue(typeName, options) => (0, if typeName == "" then None else Some(Request.SoftEnum(typeName, options)))
    case OtherValue => (codes.value, None)
  }

  /** What a parameter needs interned, in order. */
  function RequestsOfParam(codes: ArgCodes, p: ParamInfo): seq<Request> {
    (if ValueToParamType(codes, p).1.Some? then [ValueToParamType(codes, p).1.value] else [])
    + (if p.suffix != "" then [Suffix(p.suffix)] else [])
  }

  function AliasRequests(c: Command): seq<Request> {
    if c.aliases == [] then [] else [StaticEnum(c.name + "Aliases", c.aliases)]
  }

  function RequestsOfOverload(codes: ArgCodes, params: seq<ParamInfo>): seq<Request> {
    if params == [] then []
    else RequestsOfOverload(codes, params[..|params| - 1]) + RequestsOfParam(codes, params[|params| - 1])
  }

  function RequestsOfOverloads(codes: ArgCodes, overloads: seq<seq<ParamInfo>>): seq<Request> {
    if overloads == [] then []
    else RequestsOfOverloads(codes, overloads[..|overloads| - 1]) + RequestsOfOverload(codes, overloads[|overloads| - 1])
  }

  function RequestsOf(codes: ArgCodes, commands: seq<Command>): seq<Request> {
    if commands == [] then []
    else
      var last := commands[|commands| - 1];
      RequestsOf(codes, commands[..|commands| - 1]) + AliasRequests(last) + RequestsOfOverloads(codes, last.params)
  }

  // ---------------------------------------------------------------------------
  // What a right encoding is, read off the tables
  // ---------------------------------------------------------------------------

  ghost predicate AllKnown(t: Tables, requests: seq<Request>) {
    forall i :: 0 <= i < |requests| ==> Known(t, requests[i])
  }

  /** The flags and low field that refer to a listed request, or-ed onto a word. */
  function WithReference(w: Word, t: Tables, r: Request): Word
    requires Known(t, r)
  {
    Word(w.flags + {match r case StaticEnum(_, _) => Enum case SoftEnum(_, _) => Flag.SoftEnum case Suffix(_) => Suffixed},
         BitOr(w.field, IndexOf(t, r)))
  }

  /** `encoded` refers to the entries of `t` that `p` asks for. */
  ghost predicate ParamRefers(codes: ArgCodes, t: Tables, encoded: Parameter, p: ParamInfo) {
    && AllKnown(t, RequestsOfParam(codes, p))
    && encoded.name == p.name && encoded.optional == p.optional
    && encoded.collapseEnum == p.value.BoolValue?
    && var (code, definition) := ValueToParamType(codes, p);
       var plain := Word({Valid}, code);
       var typed :=
         if definition.Some? then (assert RequestsOfParam(codes, p)[0] == definition.value; WithReference(plain, t, definition.value))
         else plain;
       encoded.word ==
         if p.suffix != "" then
           (assert RequestsOfParam(codes, p)[|RequestsOfParam(codes, p)| - 1] == Suffix(p.suffix); WithReference(typed, t, Suffix(p.suffix)))
         else typed
  }

  ghost predicate OverloadRefers(codes: ArgCodes, t: Tables, encoded: seq<Parameter>, params: seq<ParamInfo>) {
    |encoded| == |params| && forall i :: 0 <= i < |params| ==> ParamRefers(codes, t, encoded[i], params[i])
  }

  ghost predicate AliasesRefer(t: Tables, aliases: Option<nat>, c: Command) {
    if c.aliases == [] then aliases == None
    else
      var r := StaticEnum(c.name + "Aliases", c.aliases);
      Known(t, r) && aliases == Some(IndexOf(t, r))
  }

  ghost predicate OverloadsRefer(codes: ArgCodes, t: Tables, encoded: seq<seq<Parameter>>, overloads: seq<seq<ParamInfo>>) {
    |encoded| == |overloads| && forall i :: 0 <= i < |overloads| ==> OverloadRefers(codes, t, encoded[i], overloads[i])
  }

  /** `encoded` is `c`, with every index it carries naming the entry that `c` asks for. */
  ghost predicate Refers(codes: ArgCodes, t: Tables, encoded: Encoded, c: Command) {
    && encoded.name == c.name && encoded.description == c.description
    && AliasesRefer(t, encoded.aliases, c)
    && OverloadsRefer(codes, t, encoded.overloads, c.params)
  }

  // ---------------------------------------------------------------------------
  // References survive growth
  // ---------------------------------------------------------------------------

  lemma ParamSurvives(codes: ArgCodes, t: Tables, requests: seq<Request>, encoded: Parameter, p: ParamInfo)
    requires ParamRefers(codes, t, encoded, p)
    ensures ParamRefers(codes, InternAll(t, requests), encoded, p)
  {
    hide InternAll, Known, IndexOf, ValueToParamType, BitOr;
    var needed := RequestsOfParam(codes, p);
    forall i | 0 <= i < |needed|
      ensures Known(InternAll(t, requests), needed[i]) && IndexOf(InternAll(t, requests), needed[i]) == IndexOf(t, needed[i])
    {
      InternAllKeeps(t, requests, needed[i]);
    }
    var definition := ValueToParamType(codes, p).1;
    assert definition.Some? ==> needed[0] == definition.value;
    assert p.suffix != "" ==> needed[|needed| - 1] == Suffix(p.suffix);
  }

  lemma OverloadSurvives(codes: ArgCodes, t: Tables, requests: seq<Request>, encoded: seq<Parameter>, params: seq<ParamInfo>)
    requires OverloadRefers(codes, t, encoded, params)
    ensures OverloadRefers(codes, InternAll(t, requests), encoded, params)
  {
    hide InternAll, ParamRefers;
    forall i | 0 <= i < |params| ensures ParamRefers(codes, InternAll(t, requests), encoded[i], params[i]) {
      ParamSurvives(codes, t, requests, encoded[i], params[i]);
    }
  }

  lemma OverloadsSurvive(codes: ArgCodes, t: Tables, requests: seq<Request>, encoded: seq<seq<Parameter>>, overloads: seq<seq<ParamInfo>>)
    requires OverloadsRefer(codes, t, encoded, overloads)
    ensures OverloadsRefer(codes, InternAll(t, requests), encoded, overloads)
  {
    hide InternAll, OverloadRefers;
    forall i | 0 <= i < |overloads| ensures OverloadRefers(codes, InternAll(t, requests), encoded[i], overloads[i]) {
      OverloadSurvives(codes, t, requests, encoded[i], overloads[i]);
    }
  }

  lemma AliasesSurvive(t: Tables, requests: seq<Request>, aliases: Option<nat>, c: Command)
    requires AliasesRefer(t, aliases, c)
    ensures AliasesRefer(InternAll(t, requests), aliases, c)
  {
    hide InternAll, Known, IndexOf;
    if c.aliases != [] {
      InternAllKeeps(t, requests, StaticEnum(c.name + "Aliases", c.aliases));
    }
  }

  /** An encoded command keeps its meaning whatever is interned after it. */
  lemma CommandSurvives(codes: ArgCodes, t: Tables, requests: seq<Request>, encoded: Encoded, c: Command)
    requires Refers(codes, t, encoded, c)
    ensures Refers(codes, InternAll(t, requests), encoded, c)
  {
    hide InternAll, OverloadsRefer, AliasesRefer;
    AliasesSurvive(t, requests, encoded.aliases, c);
    OverloadsSurvive(codes, t, requests, encoded.overloads, c.params);
  }

  // ---------------------------------------------------------------------------
  // The builder
  // ---------------------------------------------------------------------------

  /** `indices` caches where each name of the list was listed last. */
  ghost predicate Caches(indices: map<string, nat>, names: seq<string>) {
    forall name :: (name in indices <==> name in names) && (name in names ==> indices[name] == LastIndexOf(names, name))
  }

  lemma CacheNext(indices: map<string, nat>, names: seq<string>, name: string)
    requires Caches(indices, names)
    ensures Caches(indices[name := |names|], names + [name])
  {
    forall other | other in names + [name]
      ensures LastIndexOf(names + [name], other) == if other == name then |names| else LastIndexOf(names, other)
    {
      if other != name {
        LastIndexStays(names, other, name);
      }
    }
  }

  class CommandBuilder {
    const codes: ArgCodes
    var enums: seq<CommandEnum>
    var values: seq<string>
    var dynamics: seq<DynamicEnum>
    var suffixes: seq<string>
    var commands: seq<Encoded>
    var enumIndices: map<string, nat>
    var valueIndices: map<string, nat>
    var dynamicIndices: map<string, nat>
    var suffixIndices: map<string, nat>

    function Current(): Tables
      reads this
    {
      Tables(enums, values, dynamics, suffixes)
    }

    ghost predicate Valid()
      reads this
    {
      && Caches(enumIndices, EnumNames(enums))
      && Caches(valueIndices, values)
      && Caches(dynamicIndices, DynamicNames(dynamics))
      && Caches(suffixIndices, suffixes)
    }

    /** Starts from the packet the backend sent. */
    constructor (codes: ArgCodes, packet: Tables, commands: seq<Encoded>)
      ensures Valid() && Current() == packet && this.commands == commands && this.codes == codes
    {
      var enumIndices := IndexNames(EnumNames(packet.enums));
      var valueIndices := IndexNames(packet.values);
      var dynamicIndices := IndexNames(DynamicNames(packet.dynamics));
      var suffixIndices := IndexNames(packet.suffixes);
      this.codes, this.commands := codes, commands;
      enums, values, dynamics, suffixes := packet.enums, packet.values, packet.dynamics, packet.suffixes;
      this.enumIndices, this.valueIndices := enumIndices, valueIndices;
      this.dynamicIndices, this.suffixIndices := dynamicIndices, suffixIndices;
    }

    /** Interns the options of an enum, reusing values that are already listed. */
    method InternOptions(options: seq<string>) returns (indices: seq<nat>)
      requires Caches(valueIndices, values)
      modifies `values, `valueIndices
      ensures Caches(valueIndices, values)
      ensures (values, indices) == InternValues(old(values), options)
    {
      hide Caches;
      indices := [];
      for n := 0 to |options|
        invariant Caches(valueIndices, values)
        invariant (values, indices) == InternValues(old(values), options[..n])
      {
        var option := options[n];
        assert options[..n + 1][..n] == options[..n];
        CacheAnswers(valueIndices, values, option);
        if option in valueIndices {
          indices := indices + [valueIndices[option]];
        } else {
          CacheNext(valueIndices, values, option);
          indices := indices + [|values|];
          valueIndices := valueIndices[option := |values|];
          values := values + [option];
        }
      }
      assert options[..|options|] == options;
    }

    /** Lists a static enum, unless its name is listed already, and gives its index. */
    method InternStaticEnum(name: string, options: seq<string>) returns (index: nat)
      requires Valid()
      modifies `enums, `values, `enumIndices, `valueIndices
      ensures Valid()
      ensures Current() == Intern(old(Current()), StaticEnum(name, options))
      ensures Known(Current(), StaticEnum(name, options)) && index == IndexOf(Current(), StaticEnum(name, options))
    {
      hide Caches, InternValues;
      CacheAnswers(enumIndices, EnumNames(enums), name);
      if name in enumIndices {
        return enumIndices[name];
      }
      index := |enums|;
      CacheNext(enumIndices, EnumNames(enums), name);
      enumIndices := enumIndices[name := index];
      var indices := InternOptions(options);
      assert EnumNames(enums + [CommandEnum(name, indices)]) == EnumNames(enums) + [name];
      enums := enums + [CommandEnum(name, indices)];
      CacheAnswers(enumIndices, EnumNames(enums), name);
    }

    method ProcessAliases(c: Command) returns (aliases: Option<nat>)
      requires Valid()
      modifies `enums, `values, `enumIndices, `valueIndices
      ensures Valid() && Current() == InternAll(old(Current()), AliasRequests(c))
      ensures AliasesRefer(Current(), aliases, c)
    {
      hide Valid, Intern, IndexOf, Known;
      if |c.aliases| == 0 {
        return None;
      }
      InternOne(Current(), StaticEnum(c.name + "Aliases", c.aliases));
      var index := InternStaticEnum(c.name + "Aliases", c.aliases);
      return Some(index);
    }

    /** Lists an enum or soft enum and or-s its reference onto the type word. */
    method HandleEnum(w: Word, definition: Request) returns (typed: Word)
      requires Valid() && !definition.Suffix?
      modifies `enums, `values, `dynamics, `enumIndices, `valueIndices, `dynamicIndices
      ensures Valid() && Current() == Intern(old(Current()), definition)
      ensures Known(Current(), definition) && typed == WithReference(w, Current(), definition)
    {
      hide Caches, InternValues, BitOr;
      if definition.StaticEnum? {
        var index := InternStaticEnum(definition.name, definition.options);
        return Word(w.flags + {Enum}, BitOr(w.field, index));
      }
      CacheAnswers(dynamicIndices, DynamicNames(dynamics), definition.name);
      var index: nat;
      if definition.name in dynamicIndices {
        index := dynamicIndices[definition.name];
      } else {
        index := |dynamics|;
        CacheNext(dynamicIndices, DynamicNames(dynamics), definition.name);
        assert DynamicNames(dynamics + [DynamicEnum(definition.name, definition.options)]) == DynamicNames(dynamics) + [definition.name];
        dynamicIndices := dynamicIndices[definition.name := index];
        dynamics := dynamics + [DynamicEnum(definition.name, definition.options)];
        CacheAnswers(dynamicIndices, DynamicNames(dynamics), definition.name);
      }
      typed := Word(w.flags + {Flag.SoftEnum}, BitOr(w.field, index));
    }

    method HandleSuffix(w: Word, suffix: string) returns (typed: Word)
      requires Valid()
      modifies `suffixes, `suffixIndices
      ensures Valid() && Current() == Intern(old(Current()), Suffix(suffix))
      ensures Known(Current(), Suffix(suffix)) && typed == WithReference(w, Current(), Suffix(suffix))
    {
      hide Caches, BitOr;
      CacheAnswers(suffixIndices, suffixes, suffix);
      var index: nat;
      if suffix in suffixIndices {
        index := suffixIndices[suffix];
      } else {
        index := |suffixes|;
        CacheNext(suffixIndices, suffixes, suffix);
        suffixIndices := suffixIndices[suffix := index];
        suffixes := suffixes + [suffix];
        CacheAnswers(suffixIndices, suffixes, suffix);
      }
      typed := Word(w.flags + {Suffixed}, BitOr(w.field, index));
    }

    /** Encodes one parameter against the tables it leaves behind. */
    method ProcessParam(p: ParamInfo) returns (encoded: Parameter)
      requires Valid()
      modifies this
      ensures Valid() && commands == old(commands)
      ensures Current() == InternAll(old(Current()), RequestsOfParam(codes, p))
      ensures ParamRefers(codes, Current(), encoded, p)
    {
      hide Valid, Intern, IndexOf, Known, BitOr, ValueToParamType;
      ghost var start := Current();
      var (code, definition) := ValueToParamType(codes, p);
      DefinitionIsNoSuffix(codes, p);
      InternTwo(start, definition, p.suffix);
      var w := Word({Flag.Valid}, code);
      if definition.Some? {
        w := HandleEnum(w, definition.value);
      }
      ghost var middle, typed := Current(), w;
      if p.suffix != "" {
        w := HandleSuffix(w, p.suffix);
        if definition.Some? {
          InternKeeps(middle, Suffix(p.suffix), definition.value);
        }
      }
      encoded := Parameter(p.name, w, p.optional, p.value.BoolValue?);
      forall i | 0 <= i < |RequestsOfParam(codes, p)| ensures Known(Current(), RequestsOfParam(codes, p)[i]) {
        RequestedIsKnown(start, RequestsOfParam(codes, p), i);
      }
    }

    method ProcessParamList(params: seq<ParamInfo>) returns (encoded: seq<Parameter>)
      requires Valid()
      modifies this
      ensures Valid() && commands == old(commands)
      ensures Current() == InternAll(old(Current()), RequestsOfOverload(codes, params))
      ensures OverloadRefers(codes, Current(), encoded, params)
    {
      hide Valid, InternAll, ParamRefers, RequestsOfParam;
      encoded := [];
      InternNothing(Current());
      for n := 0 to |params|
        invariant Valid() && commands == old(commands)
        invariant Current() == InternAll(old(Current()), RequestsOfOverload(codes, params[..n]))
        invariant OverloadRefers(codes, Current(), encoded, params[..n])
      {
        ghost var before, done := Current(), encoded;
        assert params[..n + 1][..n] == params[..n];
        var parameter := ProcessParam(params[n]);
        InternAllConcat(old(Current()), RequestsOfOverload(codes, params[..n]), RequestsOfParam(codes, params[n]));
        OverloadSurvives(codes, before, RequestsOfParam(codes, params[n]), done, params[..n]);
        encoded := encoded + [parameter];
      }
      assert params[..|params|] == params;
    }

    method ProcessParams(c: Command) returns (encoded: seq<seq<Parameter>>)
      requires Valid()
      modifies this
      ensures Valid() && commands == old(commands)
      ensures Current() == InternAll(old(Current()), RequestsOfOverloads(codes, c.params))
      ensures OverloadsRefer(codes, Current(), encoded, c.params)
    {
      hide Valid, InternAll, OverloadRefers, RequestsOfOverload;
      encoded := [];
      InternNothing(Current());
      for n := 0 to |c.params|
        invariant Valid() && commands == old(commands)
        invariant Current() == InternAll(old(Current()), RequestsOfOverloads(codes, c.params[..n]))
        invariant OverloadsRefer(codes, Current(), encoded, c.params[..n])
      {
        ghost var before, done := Current(), encoded;
        assert c.params[..n + 1][..n] == c.params[..n];
        var overload := ProcessParamList(c.params[n]);
        InternAllConcat(old(Current()), RequestsOfOverloads(codes, c.params[..n]), RequestsOfOverload(codes, c.params[n]));
        OverloadsSurvive(codes, before, RequestsOfOverload(codes, c.params[n]), done, c.params[..n]);
        encoded := encoded + [overload];
      }
      assert c.params[..|c.params|] == c.params;
    }

    /**
     Appends the registered commands, in whatever order they come. Afterwards every command
     appended refers to the right entries of the final tables, those of the packet are where
     they were, and the tables grew by exactly what the commands asked for.
     */
    method AppendCustomCommands(registered: seq<Command>)
      requires Valid()
      modifies this
      ensures Valid()
      ensures Current() == InternAll(old(Current()), RequestsOf(codes, registered))
      ensures Extends(Current(), old(Current()))
      ensures |commands| == old(|commands|) + |registered| && old(commands) <= commands
      ensures forall i :: 0 <= i < |registered| ==> Refers(codes, Current(), commands[old(|commands|) + i], registered[i])
    {
      hide Caches, InternAll, AliasesRefer, OverloadsRefer, AliasRequests, RequestsOfOverloads, Extends;
      InternNothing(Current());
      for n := 0 to |registered|
        invariant Valid()
        invariant Current() == InternAll(old(Current()), RequestsOf(codes, registered[..n]))
        invariant |commands| == old(|commands|) + n && old(commands) <= commands
        invariant forall i :: 0 <= i < n ==> Refers(codes, Current(), commands[old(|commands|) + i], registered[i])
      {
        var c := registered[n];
        ghost var before, done := Current(), commands;
        ghost var wanted := AliasRequests(c) + RequestsOfOverloads(codes, c.params);
        assert registered[..n + 1][..n] == registered[..n];
        var aliases := ProcessAliases(c);
        ghost var middle := Current();
        var overloads := ProcessParams(c);
        AliasesSurvive(middle, RequestsOfOverloads(codes, c.params), aliases, c);
        InternAllConcat(before, AliasRequests(c), RequestsOfOverloads(codes, c.params));
        InternAllConcat(old(Current()), RequestsOf(codes, registered[..n]), wanted);
        assert RequestsOf(codes, registered[..n]) + wanted == RequestsOf(codes, registered[..n + 1]);
        forall i | 0 <= i < n ensures Refers(codes, Current(), done[old(|commands|) + i], registered[i]) {
          CommandSurvives(codes, before, wanted, done[old(|commands|) + i], registered[i]);
        }
        commands := commands + [Encoded(c.name, c.description, aliases, overloads)];
      }
      assert registered[..|registered|] == registered;
      InternAllKeeps(old(Current()), RequestsOf(codes, registered), Suffix(""));
    }
  }

  /** Fills an index map front to back. */
  method IndexNames(names: seq<string>) returns (indices: map<string, nat>)
    ensures Caches(indices, names)
  {
    indices := map[];
    for n := 0 to |names|
      invariant Caches(indices, names[..n])
    {
      hide Caches;
      CacheNext(indices, names[..n], names[n]);
      assert names[..n + 1] == names[..n] + [names[n]];
      indices := indices[names[n] := n];
    }
    assert names[..|names|] == names;
  }

  lemma CacheAnswers(indices: map<string, nat>, names: seq<string>, name: string)
    requires Caches(indices, names)
    ensures name in indices <==> name in names
    ensures name in names ==> indices[name] == LastIndexOf(names, name)
  {
  }

  lemma InternNothing(t: Tables)
    ensures InternAll(t, []) == t
  {
  }

  lemma InternOne(t: Tables, r: Request)
    ensures InternAll(t, [r]) == Intern(t, r)
  {
    hide Intern;
    assert [r][..0] == [];
  }

  lemma DefinitionIsNoSuffix(codes: ArgCodes, p: ParamInfo)
    ensures ValueToParamType(codes, p).1.Some? ==> !ValueToParamType(codes, p).1.value.Suffix?
  {
  }

  lemma InternTwo(t: Tables, definition: Option<Request>, suffix: string)
    ensures var typed := if definition.Some? then Intern(t, definition.value) else t;
            InternAll(t, (if definition.Some? then [definition.value] else []) + (if suffix != "" then [Suffix(suffix)] else []))
            == if suffix != "" then Intern(typed, Suffix(suffix)) else typed
  {
    hide Intern;
    var a := if definition.Some? then [definition.value] else [];
    var b := if suffix != "" then [Suffix(suffix)] else [];
    InternAllConcat(t, a, b);
    if definition.Some? {
      InternOne(t, definition.value);
    }
    if suffix != "" {
      InternOne(InternAll(t, a), Suffix(suffix));
    }
  }
}
