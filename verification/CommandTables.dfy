/**
 The AvailableCommands tables: enums, enum values, soft enums and suffixes that commands
 refer to by index. Interning appends a name once and hands out its index; the laws here
 say that indices handed out early still mean the same in the final tables.
 */
module CommandTables {
  import opened Wrappers

  datatype CommandEnum = CommandEnum(enumType: string, valueIndices: seq<nat>)
  datatype DynamicEnum = DynamicEnum(enumType: string, values: seq<string>)

  datatype Tables = Tables(
    enums: seq<CommandEnum>,
    values: seq<string>,
    dynamics: seq<DynamicEnum>,
    suffixes: seq<string>)

  function EnumNames(enums: seq<CommandEnum>): (r: seq<string>)
    ensures |r| == |enums|
  {
    seq(|enums|, i requires 0 <= i < |enums| => enums[i].enumType)
  }

  function DynamicNames(dynamics: seq<DynamicEnum>): (r: seq<string>)
    ensures |r| == |dynamics|
  {
    seq(|dynamics|, i requires 0 <= i < |dynamics| => dynamics[i].enumType)
  }

  /** Where a name was listed last: what a map filled front to back ends up holding. */
  function LastIndexOf(names: seq<string>, name: string): (n: nat)
    requires name in names
    ensures n < |names| && names[n] == name
    ensures forall i :: n < i < |names| ==> names[i] != name
  {
    if names[|names| - 1] == name then |names| - 1 else LastIndexOf(names[..|names| - 1], name)
  }

  /** The tables keep everything they had, in place. */
  ghost predicate Extends(later: Tables, earlier: Tables) {
    && earlier.enums <= later.enums && earlier.values <= later.values
    && earlier.dynamics <= later.dynamics && earlier.suffixes <= later.suffixes
  }

  // ---------------------------------------------------------------------------
  // Interning
  // ---------------------------------------------------------------------------

  /** Something a command needs listed before it can refer to it. */
  datatype Request =
    | StaticEnum(name: string, options: seq<string>)
    | SoftEnum(name: string, options: seq<string>)
    | Suffix(name: string)

  /** The name column of the table a request is looked up in. */
  function NamesFor(t: Tables, r: Request): seq<string> {
    match r
    case StaticEnum(_, _) => EnumNames(t.enums)
    case SoftEnum(_, _) => DynamicNames(t.dynamics)
    case Suffix(_) => t.suffixes
  }

  predicate Known(t: Tables, r: Request) {
    r.name in NamesFor(t, r)
  }

  function IndexOf(t: Tables, r: Request): nat
    requires Known(t, r)
  {
    LastIndexOf(NamesFor(t, r), r.name)
  }

  /** Interns options one by one: the grown value table and the index of each option. */
  function InternValues(values: seq<string>, options: seq<string>): (r: (seq<string>, seq<nat>))
    ensures |r.1| == |options|
    decreases |options|
  {
    if options == [] then (values, [])
    else
      var option := options[|options| - 1];
      var (grown, indices) := InternValues(values, options[..|options| - 1]);
      if option in grown then (grown, indices + [LastIndexOf(grown, option)])
      else (grown + [option], indices + [|grown|])
  }

  function Intern(t: Tables, r: Request): Tables {
    if Known(t, r) then t
    else
      match r
      case StaticEnum(name, options) =>
        var (grown, indices) := InternValues(t.values, options);
        t.(values := grown, enums := t.enums + [CommandEnum(name, indices)])
      case SoftEnum(name, options) => t.(dynamics := t.dynamics + [DynamicEnum(name, options)])
      case Suffix(name) => t.(suffixes := t.suffixes + [name])
  }

  function InternAll(t: Tables, requests: seq<Request>): Tables {
    if requests == [] then t
    else Intern(InternAll(t, requests[..|requests| - 1]), requests[|requests| - 1])
  }

  lemma {:induction false} InternAllConcat(t: Tables, a: seq<Request>, b: seq<Request>)
    ensures InternAll(t, a + b) == InternAll(InternAll(t, a), b)
  {
    hide Intern;
    if b == [] {
      assert a + b == a;
    } else {
      InternAllConcat(t, a, b[..|b| - 1]);
      assert (a + b)[..|a + b| - 1] == a + b[..|b| - 1];
      assert (a + b)[|a + b| - 1] == b[|b| - 1];
    }
  }

  // ---------------------------------------------------------------------------
  // Indices keep their meaning
  // ---------------------------------------------------------------------------

  /** Values are only appended, and each index resolves to its option. */
  lemma {:induction false} ValuesResolve(values: seq<string>, options: seq<string>)
    ensures values <= InternValues(values, options).0
    ensures forall i :: 0 <= i < |options| ==>
              && InternValues(values, options).1[i] < |InternValues(values, options).0|
              && InternValues(values, options).0[InternValues(values, options).1[i]] == options[i]
    decreases |options|
  {
    if options != [] {
      ValuesResolve(values, options[..|options| - 1]);
    }
  }

  lemma NamesGrow(t: Tables, r: Request, q: Request)
    ensures NamesFor(Intern(t, r), q) == NamesFor(t, q)
            || (NamesFor(Intern(t, r), q) == NamesFor(t, q) + [r.name] && r.name !in NamesFor(t, q))
    ensures Known(Intern(t, r), r)
  {
    hide InternValues;
    var later := Intern(t, r);
    if !Known(t, r) {
      match r
      case StaticEnum(name, _) => {
        assert EnumNames(later.enums) == EnumNames(t.enums) + [name];
      }
      case SoftEnum(name, _) => {
        assert DynamicNames(later.dynamics) == DynamicNames(t.dynamics) + [name];
      }
      case Suffix(name) => {}
    }
  }

  lemma LastIndexStays(names: seq<string>, name: string, other: string)
    requires name in names && other != name
    ensures LastIndexOf(names + [other], name) == LastIndexOf(names, name)
  {
  }

  /** Interning anything leaves every known index as it was, and the tables a prefix. */
  lemma InternKeeps(t: Tables, r: Request, q: Request)
    ensures Extends(Intern(t, r), t)
    ensures Known(Intern(t, r), r)
    ensures Known(t, q) ==> Known(Intern(t, r), q) && IndexOf(Intern(t, r), q) == IndexOf(t, q)
  {
    hide InternValues;
    NamesGrow(t, r, q);
    NamesGrow(t, r, r);
    if r.StaticEnum? {
      ValuesResolve(t.values, r.options);
    }
    if Known(t, q) && NamesFor(t, q) != NamesFor(Intern(t, r), q) {
      LastIndexStays(NamesFor(t, q), q.name, r.name);
    }
  }

  lemma ExtendsIsTransitive(a: Tables, b: Tables, c: Tables)
    requires Extends(b, a) && Extends(c, b)
    ensures Extends(c, a)
  {
  }

  lemma {:induction false} InternAllKeeps(t: Tables, requests: seq<Request>, q: Request)
    ensures Extends(InternAll(t, requests), t)
    ensures Known(t, q) ==> Known(InternAll(t, requests), q) && IndexOf(InternAll(t, requests), q) == IndexOf(t, q)
  {
    hide Intern, Known, IndexOf, Extends;
    if requests != [] {
      var before := InternAll(t, requests[..|requests| - 1]);
      InternAllKeeps(t, requests[..|requests| - 1], q);
      InternKeeps(before, requests[|requests| - 1], q);
      ExtendsIsTransitive(t, before, InternAll(t, requests));
    } else {
      ExtendsItself(t);
    }
  }

  lemma ExtendsItself(t: Tables)
    ensures Extends(t, t)
  {
  }

  /** Everything requested ends up listed. */
  lemma {:induction false} RequestedIsKnown(t: Tables, requests: seq<Request>, i: nat)
    requires i < |requests|
    ensures Known(InternAll(t, requests), requests[i])
  {
    hide Intern, Known, IndexOf;
    var last := requests[|requests| - 1];
    var before := InternAll(t, requests[..|requests| - 1]);
    InternKeeps(before, last, requests[i]);
    if i < |requests| - 1 {
      RequestedIsKnown(t, requests[..|requests| - 1], i);
    }
  }

  // ---------------------------------------------------------------------------
  // Which options an enum name ends up with
  // ---------------------------------------------------------------------------

  /** The options an enum index stands for. */
  function OptionsAt(t: Tables, n: nat): seq<Option<string>>
    requires n < |t.enums|
  {
    var indices := t.enums[n].valueIndices;
    seq(|indices|, i requires 0 <= i < |indices| => if indices[i] < |t.values| then Some(t.values[indices[i]]) else None)
  }

  function AllSome(options: seq<string>): seq<Option<string>> {
    seq(|options|, i requires 0 <= i < |options| => Some(options[i]))
  }

  /** The options an enum name is listed with: resolved values, or the soft enum's own. */
  function Listed(t: Tables, q: Request): seq<Option<string>>
    requires !q.Suffix? && Known(t, q)
  {
    if q.StaticEnum? then OptionsAt(t, IndexOf(t, q)) else AllSome(t.dynamics[IndexOf(t, q)].values)
  }

  /** Both requests are for the same entry of the same table. */
  predicate Same(a: Request, b: Request) {
    (a.StaticEnum? <==> b.StaticEnum?) && (a.SoftEnum? <==> b.SoftEnum?) && a.name == b.name
  }

  ghost predicate Asked(requests: seq<Request>, q: Request) {
    exists i :: 0 <= i < |requests| && Same(requests[i], q)
  }

  lemma AskedLater(requests: seq<Request>, q: Request)
    requires Asked(requests, q) && !Same(requests[0], q)
    ensures Asked(requests[1..], q)
  {
    var i :| 0 <= i < |requests| && Same(requests[i], q);
    assert requests[1..][i - 1] == requests[i];
  }

  /** The first request for an entry. */
  function FirstAsked(requests: seq<Request>, q: Request): (first: Request)
    requires Asked(requests, q)
    ensures Same(first, q)
    decreases |requests|
  {
    if Same(requests[0], q) then requests[0]
    else
      AskedLater(requests, q);
      FirstAsked(requests[1..], q)
  }

  lemma {:induction false} FirstAskedIsFirst(requests: seq<Request>, q: Request) returns (n: nat)
    requires Asked(requests, q)
    ensures n < |requests| && requests[n] == FirstAsked(requests, q) && Same(requests[n], q)
    ensures forall i :: 0 <= i < n ==> !Same(requests[i], q)
    decreases |requests|
  {
    hide Same;
    if Same(requests[0], q) {
      n := 0;
    } else {
      AskedLater(requests, q);
      var m := FirstAskedIsFirst(requests[1..], q);
      n := m + 1;
      forall i | 0 < i < n ensures !Same(requests[i], q) {
        assert requests[i] == requests[1..][i - 1];
      }
    }
  }

  lemma SameKnown(t: Tables, a: Request, b: Request)
    requires Same(a, b)
    ensures Known(t, a) <==> Known(t, b)
    ensures Known(t, a) ==> IndexOf(t, a) == IndexOf(t, b)
    ensures Known(t, a) && !a.Suffix? ==> Listed(t, a) == Listed(t, b)
  {
  }

  lemma NewEntryHasItsOptions(t: Tables, r: Request)
    requires !r.Suffix? && !Known(t, r)
    ensures Known(Intern(t, r), r) && Listed(Intern(t, r), r) == AllSome(r.options)
  {
    NamesGrow(t, r, r);
    if r.StaticEnum? {
      ValuesResolve(t.values, r.options);
      hide InternValues;
      assert EnumNames(Intern(t, r).enums)[|t.enums|] == r.name;
    } else {
      assert DynamicNames(Intern(t, r).dynamics)[|t.dynamics|] == r.name;
    }
  }

  /** What an entry is listed with never changes once its options resolve. */
  lemma ListedStays(earlier: Tables, later: Tables, q: Request, options: seq<string>)
    requires !q.Suffix? && Known(earlier, q) && Known(later, q) && IndexOf(later, q) == IndexOf(earlier, q)
    requires Extends(later, earlier) && Listed(earlier, q) == AllSome(options)
    ensures Listed(later, q) == AllSome(options)
  {
    if q.StaticEnum? {
      var n := IndexOf(earlier, q);
      assert later.enums[n] == earlier.enums[n];
      forall i | 0 <= i < |options| ensures OptionsAt(later, n)[i] == Some(options[i]) {
        assert OptionsAt(earlier, n)[i] == AllSome(options)[i];
      }
    } else {
      assert later.dynamics[IndexOf(earlier, q)] == earlier.dynamics[IndexOf(earlier, q)];
    }
  }

  lemma OtherRequestKeepsUnknown(t: Tables, r: Request, q: Request)
    requires !Known(t, q) && !Same(r, q)
    ensures !Known(Intern(t, r), q)
  {
    hide InternValues;
    if r.StaticEnum? && !Known(t, r) {
      assert EnumNames(Intern(t, r).enums) == EnumNames(t.enums) + [r.name];
    } else if r.SoftEnum? && !Known(t, r) {
      assert DynamicNames(Intern(t, r).dynamics) == DynamicNames(t.dynamics) + [r.name];
    }
  }

  lemma InternHead(t: Tables, requests: seq<Request>)
    requires requests != []
    ensures InternAll(t, requests) == InternAll(Intern(t, requests[0]), requests[1..])
  {
    hide Intern;
    assert [requests[0]][..0] == [];
    assert [requests[0]] + requests[1..] == requests;
    InternAllConcat(t, [requests[0]], requests[1..]);
  }

  /**
   After any number of requests, an entry the packet did not have is listed with exactly the
   options it was first asked for with, in order, whatever was asked for later.
   */
  lemma {:induction false} EntryKeepsFirstOptions(t: Tables, requests: seq<Request>, q: Request)
    requires !q.Suffix? && Asked(requests, q) && !Known(t, q)
    ensures Known(InternAll(t, requests), q)
    ensures Listed(InternAll(t, requests), q) == AllSome(FirstAsked(requests, q).options)
    decreases |requests|
  {
    hide Intern, Known, IndexOf, Listed, Extends, InternAll;
    var first, rest := requests[0], requests[1..];
    var next := Intern(t, first);
    InternHead(t, requests);
    InternAllKeeps(next, rest, q);
    if Same(first, q) {
      SameKnown(t, first, q);
      NewEntryHasItsOptions(t, first);
      SameKnown(next, first, q);
      ListedStays(next, InternAll(next, rest), q, first.options);
    } else {
      OtherRequestKeepsUnknown(t, first, q);
      AskedLater(requests, q);
      EntryKeepsFirstOptions(next, rest, q);
    }
  }

  /** An entry the packet already had stays the packet's own. */
  lemma PacketEntryWins(t: Tables, requests: seq<Request>, q: Request)
    requires Known(t, q)
    ensures Known(InternAll(t, requests), q) && IndexOf(InternAll(t, requests), q) == IndexOf(t, q)
    ensures q.StaticEnum? ==> IndexOf(t, q) < |t.enums| && t.enums <= InternAll(t, requests).enums
    ensures q.SoftEnum? ==> IndexOf(t, q) < |t.dynamics| && t.dynamics <= InternAll(t, requests).dynamics
  {
    hide InternAll;
    InternAllKeeps(t, requests, q);
  }

  /** `later` continues `earlier` with names that are new and pairwise different. */
  ghost predicate AddsNewNames(earlier: seq<string>, later: seq<string>) {
    earlier <= later && forall i, j :: 0 <= i < j < |later| && |earlier| <= j ==> later[i] != later[j]
  }

  lemma AddsNewNamesNext(earlier: seq<string>, later: seq<string>, latest: seq<string>)
    requires AddsNewNames(earlier, later) && AddsNewNames(later, latest)
    ensures AddsNewNames(earlier, latest)
  {
  }

  /** Interning options adds each value that is not listed yet once. */
  lemma {:induction false} ValuesListedOnce(values: seq<string>, options: seq<string>)
    ensures AddsNewNames(values, InternValues(values, options).0)
    decreases |options|
  {
    if options != [] {
      ValuesListedOnce(values, options[..|options| - 1]);
    }
  }

  /** No listed key is ever appended again, in the value table or in any table of names. */
  lemma {:induction false} NothingListedTwice(t: Tables, requests: seq<Request>, q: Request)
    ensures AddsNewNames(NamesFor(t, q), NamesFor(InternAll(t, requests), q))
    ensures AddsNewNames(t.values, InternAll(t, requests).values)
  {
    hide Intern, NamesFor;
    if requests != [] {
      var before, last := InternAll(t, requests[..|requests| - 1]), requests[|requests| - 1];
      NothingListedTwice(t, requests[..|requests| - 1], q);
      NamesGrow(before, last, q);
      AddsNewNamesNext(NamesFor(t, q), NamesFor(before, q), NamesFor(Intern(before, last), q));
      InternListsValuesOnce(before, last);
      AddsNewNamesNext(t.values, before.values, Intern(before, last).values);
    }
  }

  lemma InternListsValuesOnce(t: Tables, r: Request)
    ensures AddsNewNames(t.values, Intern(t, r).values)
  {
    hide InternValues;
    if r.StaticEnum? {
      ValuesListedOnce(t.values, r.options);
    }
  }
}
