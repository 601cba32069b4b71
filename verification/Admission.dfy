/**
 Admission of connections: one session per account. Every accepted connection runs the
 same short program on its own goroutine; the only shared state is the reservation set
 and the session table. Every theorem is about every finite interleaving of any number
 of connections.
 */
module Admission {
  import opened Wrappers

  type Connection = nat

  // ---------------------------------------------------------------------------
  // The shared state
  // ---------------------------------------------------------------------------

  /** The reserved accounts; the map behind them is made on first use. */
  function Reserved(xuids: Option<set<string>>): set<string> {
    if xuids.None? then {} else xuids.value
  }

  function CanReserve(xuids: Option<set<string>>, xuid: string): bool {
    xuid == "" || xuid !in Reserved(xuids)
  }

  function AfterReserve(xuids: Option<set<string>>, xuid: string): Option<set<string>> {
    if xuid == "" then xuids else Some(Reserved(xuids) + {xuid})
  }

  function AfterRelease(xuids: Option<set<string>>, xuid: string): Option<set<string>> {
    if xuid == "" || xuids.None? then xuids else Some(xuids.value - {xuid})
  }

  class Server {
    var xuids: Option<set<string>>
    var sessions: set<Connection>

    constructor ()
      ensures xuids == None && sessions == {}
    {
      xuids, sessions := None, {};
    }

    /** Reserves a non-empty account until it is released; the empty one is always free. */
    method ReserveXUID(xuid: string) returns (ok: bool)
      modifies `xuids
      ensures ok <==> CanReserve(old(xuids), xuid)
      ensures xuids == AfterReserve(old(xuids), xuid)
    {
      if xuid == "" {
        return true;
      }
      if xuids.None? {
        xuids := Some({});
      }
      if xuid in xuids.value {
        assert xuids.value + {xuid} == xuids.value;
        return false;
      }
      xuids := Some(xuids.value + {xuid});
      return true;
    }

    method ReleaseXUID(xuid: string)
      modifies `xuids
      ensures xuids == AfterRelease(old(xuids), xuid)
    {
      if xuid == "" {
        return;
      }
      if xuids.Some? {
        xuids := Some(xuids.value - {xuid});
      }
    }

    method AddSession(session: Connection)
      modifies `sessions
      ensures sessions == old(sessions) + {session}
    {
      sessions := sessions + {session};
    }

    method RemoveSession(session: Connection)
      modifies `sessions
      ensures sessions == old(sessions) - {session}
    {
      sessions := sessions - {session};
    }

    /** Lists every live session once, in no particular order. */
    method Sessions() returns (out: seq<Connection>)
      ensures forall s :: s in out <==> s in sessions
      ensures forall i, j :: 0 <= i < j < |out| ==> out[i] != out[j]
    {
      out := [];
      var rest := sessions;
      while rest != {}
        invariant rest <= sessions
        invariant forall s :: s in out <==> s in sessions && s !in rest
        invariant forall i, j :: 0 <= i < j < |out| ==> out[i] != out[j]
        decreases rest
      {
        var s :| s in rest;
        out := out + [s];
        rest := rest - {s};
      }
    }
  }

  // ---------------------------------------------------------------------------
  // The program of one connection
  // ---------------------------------------------------------------------------

  /** Where a connection's goroutine stands. */
  datatype Point =
    | Reserving
    | Accepting
    | Registering
    | Reading
    | Deregistering
    | Returning
    | Finished

  /** `releases`: the deferred release is in place. */
  datatype Routine = Routine(xuid: string, at: Point, releases: bool, refused: bool)

  datatype State = State(xuids: Option<set<string>>, sessions: set<Connection>, routines: map<Connection, Routine>)

  const INITIAL := State(None, {}, map[])

  datatype Event =
    | Connect(c: Connection, xuid: string)
    | Reserve(c: Connection)
    | Accept(c: Connection, ok: bool)
    | Register(c: Connection)
    | StopReading(c: Connection)
    | Deregister(c: Connection)
    | Return(c: Connection)

  predicate At(s: State, c: Connection, at: Point) {
    c in s.routines && s.routines[c].at == at
  }

  predicate Enabled(s: State, e: Event) {
    match e
    case Connect(c, _) => c !in s.routines
    case Reserve(c) => At(s, c, Reserving)
    case Accept(c, _) => At(s, c, Accepting)
    case Register(c) => At(s, c, Registering)
    case StopReading(c) => At(s, c, Reading)
    case Deregister(c) => At(s, c, Deregistering)
    case Return(c) => At(s, c, Returning)
  }

  /** One atomic step; `checked` is the configuration switch for duplicate accounts. */
  function Next(s: State, e: Event, checked: bool): State
    requires Enabled(s, e)
  {
    match e
    case Connect(c, xuid) => s.(routines := s.routines[c := Routine(xuid, Reserving, false, false)])
    case Reserve(c) =>
      var r := s.routines[c];
      if !checked then s.(routines := s.routines[c := r.(at := Accepting)])
      else if CanReserve(s.xuids, r.xuid) then
        s.(xuids := AfterReserve(s.xuids, r.xuid), routines := s.routines[c := r.(at := Accepting, releases := true)])
      else
        s.(xuids := AfterReserve(s.xuids, r.xuid), routines := s.routines[c := r.(at := Returning, refused := true)])
    case Accept(c, ok) => s.(routines := s.routines[c := s.routines[c].(at := if ok then Registering else Returning)])
    case Register(c) => s.(sessions := s.sessions + {c}, routines := s.routines[c := s.routines[c].(at := Reading)])
    case StopReading(c) => s.(routines := s.routines[c := s.routines[c].(at := Deregistering)])
    case Deregister(c) => s.(sessions := s.sessions - {c}, routines := s.routines[c := s.routines[c].(at := Returning)])
    case Return(c) =>
      var r := s.routines[c];
      s.(xuids := if r.releases then AfterRelease(s.xuids, r.xuid) else s.xuids,
         routines := s.routines[c := r.(at := Finished, releases := false)])
  }

  ghost predicate IsRun(trace: seq<State>, events: seq<Event>, checked: bool) {
    && |trace| == |events| + 1
    && trace[0] == INITIAL
    && forall i :: 0 <= i < |events| ==> Enabled(trace[i], events[i]) && trace[i + 1] == Next(trace[i], events[i], checked)
  }

  // ---------------------------------------------------------------------------
  // The invariant
  // ---------------------------------------------------------------------------

  /** The connection stands between its reservation and its release. */
  predicate Holds(s: State, c: Connection, xuid: string) {
    c in s.routines && s.routines[c].releases && s.routines[c].xuid == xuid
  }

  /** Admitted and not yet finished. */
  predicate Admitted(s: State, c: Connection) {
    c in s.routines && !s.routines[c].refused && s.routines[c].at in {Accepting, Registering, Reading, Deregistering, Returning}
  }

  ghost predicate ExactlyHeld(s: State) {
    forall xuid :: xuid in Reserved(s.xuids) <==> xuid != "" && exists c :: Holds(s, c, xuid)
  }

  ghost predicate OneHolder(s: State) {
    forall c, d, xuid :: xuid != "" && Holds(s, c, xuid) && Holds(s, d, xuid) ==> c == d
  }

  ghost predicate TableMatches(s: State) {
    forall c :: c in s.sessions <==> At(s, c, Reading) || At(s, c, Deregistering)
  }

  ghost predicate DeferredMatches(s: State, checked: bool) {
    forall c :: c in s.routines ==>
      && (s.routines[c].releases <==> checked && Admitted(s, c))
      && (s.routines[c].refused ==> s.routines[c].at == Returning || s.routines[c].at == Finished)
  }

  ghost predicate Inv(s: State, checked: bool) {
    ExactlyHeld(s) && OneHolder(s) && TableMatches(s) && DeferredMatches(s, checked)
  }

  lemma StepKeepsTable(s: State, e: Event, checked: bool)
    requires TableMatches(s) && Enabled(s, e)
    ensures TableMatches(Next(s, e, checked))
  {
    hide Reserved, CanReserve, AfterReserve, AfterRelease;
  }

  lemma StepKeepsDeferred(s: State, e: Event, checked: bool)
    requires DeferredMatches(s, checked) && Enabled(s, e)
    ensures DeferredMatches(Next(s, e, checked), checked)
  {
    hide Reserved, CanReserve, AfterReserve, AfterRelease;
  }

  /** Other connections hold what they held before. */
  lemma OthersHold(s: State, e: Event, checked: bool, d: Connection, xuid: string)
    requires Enabled(s, e) && d != e.c
    ensures Holds(Next(s, e, checked), d, xuid) == Holds(s, d, xuid)
  {
  }

  /** What the stepping connection holds afterwards. */
  lemma OwnHold(s: State, e: Event, checked: bool, xuid: string)
    requires Enabled(s, e) && DeferredMatches(s, checked)
    ensures Holds(Next(s, e, checked), e.c, xuid) <==>
              match e
              case Reserve(c) => checked && s.routines[c].xuid == xuid && CanReserve(s.xuids, xuid)
              case Connect(_, _) | Return(_) => false
              case _ => Holds(s, e.c, xuid)
  {
  }

  /** How the reservation set changes. */
  lemma ReservedStep(s: State, e: Event, checked: bool, xuid: string)
    requires Enabled(s, e)
    ensures xuid in Reserved(Next(s, e, checked).xuids) <==>
              if e.Reserve? && checked && s.routines[e.c].xuid == xuid && xuid != "" then true
              else if e.Return? && Holds(s, e.c, xuid) && xuid != "" then false
              else xuid in Reserved(s.xuids)
  {
  }

  lemma StepKeepsHolders(s: State, e: Event, checked: bool)
    requires Inv(s, checked) && Enabled(s, e)
    ensures ExactlyHeld(Next(s, e, checked)) && OneHolder(Next(s, e, checked))
  {
    var t := Next(s, e, checked);
    forall c, d, xuid | xuid != "" && Holds(t, c, xuid) && Holds(t, d, xuid) ensures c == d {
      if c != e.c { OthersHold(s, e, checked, c, xuid); } else { OwnHold(s, e, checked, xuid); }
      if d != e.c { OthersHold(s, e, checked, d, xuid); } else { OwnHold(s, e, checked, xuid); }
      hide Next;
    }
    forall xuid ensures xuid in Reserved(t.xuids) <==> xuid != "" && exists c :: Holds(t, c, xuid) {
      StepKeepsExactlyHeld(s, e, checked, xuid);
    }
  }

  lemma StepKeepsExactlyHeld(s: State, e: Event, checked: bool, xuid: string)
    requires Inv(s, checked) && Enabled(s, e)
    ensures xuid in Reserved(Next(s, e, checked).xuids) <==> xuid != "" && exists c :: Holds(Next(s, e, checked), c, xuid)
  {
    hide Next, Holds, DeferredMatches, TableMatches;
    var t := Next(s, e, checked);
    ReservedStep(s, e, checked, xuid);
    OwnHold(s, e, checked, xuid);
    forall d | d != e.c ensures Holds(t, d, xuid) == Holds(s, d, xuid) {
      OthersHold(s, e, checked, d, xuid);
    }
    if c :| Holds(s, c, xuid) {
      assert Holds(t, c, xuid) || c == e.c;
    }
    if e.Reserve? || e.Connect? {
      ReserverHoldsNothing(s, e, checked, xuid);
    }
  }

  /** A connection that is about to reserve, or not known yet, holds nothing. */
  lemma ReserverHoldsNothing(s: State, e: Event, checked: bool, xuid: string)
    requires DeferredMatches(s, checked) && Enabled(s, e) && (e.Reserve? || e.Connect?)
    ensures !Holds(s, e.c, xuid)
  {
  }

  lemma {:induction false} RunKeepsInv(trace: seq<State>, events: seq<Event>, checked: bool, n: nat)
    requires IsRun(trace, events, checked) && n <= |events|
    ensures Inv(trace[n], checked)
  {
    hide Next, Enabled, ExactlyHeld, OneHolder, TableMatches, DeferredMatches;
    if n == 0 {
      InitialInv(checked);
    } else {
      RunKeepsInv(trace, events, checked, n - 1);
      assert trace[n - 1 + 1] == Next(trace[n - 1], events[n - 1], checked);
      StepKeepsTable(trace[n - 1], events[n - 1], checked);
      StepKeepsDeferred(trace[n - 1], events[n - 1], checked);
      StepKeepsHolders(trace[n - 1], events[n - 1], checked);
    }
  }

  lemma InitialInv(checked: bool)
    ensures Inv(INITIAL, checked)
  {
  }

  // ---------------------------------------------------------------------------
  // What the server may rely on
  // ---------------------------------------------------------------------------

  /** The connection is admitted under the account. */
  ghost predicate AdmittedAs(s: State, c: Connection, xuid: string) {
    Admitted(s, c) && s.routines[c].xuid == xuid
  }

  lemma AdmittedHolds(s: State, c: Connection, xuid: string)
    requires Inv(s, true)
    ensures AdmittedAs(s, c, xuid) <==> Holds(s, c, xuid)
  {
    hide ExactlyHeld, OneHolder, TableMatches;
  }

  /** With the check on, no account is admitted twice at any time. */
  lemma OnePerAccount(trace: seq<State>, events: seq<Event>, n: nat, c: Connection, d: Connection, xuid: string)
    requires IsRun(trace, events, true) && n <= |events|
    requires xuid != "" && AdmittedAs(trace[n], c, xuid) && AdmittedAs(trace[n], d, xuid)
    ensures c == d
  {
    hide AdmittedAs, Holds;
    RunKeepsInv(trace, events, true, n);
    AdmittedHolds(trace[n], c, xuid);
    AdmittedHolds(trace[n], d, xuid);
  }

  /** Exactly the accounts of admitted connections are reserved, so none leaks and none is missing. */
  lemma ReservedIsAdmitted(trace: seq<State>, events: seq<Event>, n: nat, xuid: string)
    requires IsRun(trace, events, true) && n <= |events|
    ensures xuid in Reserved(trace[n].xuids) <==> xuid != "" && exists c :: AdmittedAs(trace[n], c, xuid)
  {
    hide AdmittedAs, Holds, Reserved;
    RunKeepsInv(trace, events, true, n);
    forall c ensures AdmittedAs(trace[n], c, xuid) <==> Holds(trace[n], c, xuid) {
      AdmittedHolds(trace[n], c, xuid);
    }
  }

  /** A connection is turned away exactly when its account is admitted on another connection at that moment. */
  lemma RefusedIffTaken(trace: seq<State>, events: seq<Event>, n: nat)
    requires IsRun(trace, events, true) && n < |events| && events[n].Reserve?
    ensures var c := events[n].c;
            trace[n + 1].routines[c].refused <==>
            trace[n].routines[c].xuid != "" && exists d :: d != c && AdmittedAs(trace[n], d, trace[n].routines[c].xuid)
  {
    var c := events[n].c;
    assert Enabled(trace[n], events[n]) && trace[n + 1] == Next(trace[n], events[n], true);
    RunKeepsInv(trace, events, true, n);
    ReservedIsAdmitted(trace, events, n, trace[n].routines[c].xuid);
    hide IsRun, ExactlyHeld, OneHolder, TableMatches;
  }

  /** Only the connection that was admitted under an account frees it: a refused one never does. */
  lemma OnlyTheHolderFrees(trace: seq<State>, events: seq<Event>, n: nat, xuid: string)
    requires IsRun(trace, events, true) && n < |events|
    requires xuid in Reserved(trace[n].xuids) && xuid !in Reserved(trace[n + 1].xuids)
    ensures events[n].Return? && AdmittedAs(trace[n], events[n].c, xuid) && !trace[n].routines[events[n].c].refused
  {
    assert trace[n + 1] == Next(trace[n], events[n], true);
    RunKeepsInv(trace, events, true, n);
    ReservedStep(trace[n], events[n], true, xuid);
    AdmittedHolds(trace[n], events[n].c, xuid);
    hide Next, IsRun;
  }

  /** Registered sessions of a checked server have pairwise distinct accounts, anonymous ones aside. */
  lemma RegisteredAreDistinct(trace: seq<State>, events: seq<Event>, n: nat, c: Connection, d: Connection)
    requires IsRun(trace, events, true) && n <= |events|
    requires c in trace[n].sessions && d in trace[n].sessions && c != d
    ensures c in trace[n].routines && d in trace[n].routines
    ensures trace[n].routines[c].xuid != trace[n].routines[d].xuid || trace[n].routines[c].xuid == ""
  {
    RunKeepsInv(trace, events, true, n);
    hide IsRun;
    if trace[n].routines[c].xuid == trace[n].routines[d].xuid && trace[n].routines[c].xuid != "" {
      RegisteredIsAdmitted(trace[n], c);
      RegisteredIsAdmitted(trace[n], d);
      OnePerAccount(trace, events, n, c, d, trace[n].routines[c].xuid);
    }
  }

  lemma RegisteredIsAdmitted(s: State, c: Connection)
    requires Inv(s, true) && c in s.sessions
    ensures c in s.routines && AdmittedAs(s, c, s.routines[c].xuid)
  {
  }

  /** Once every connection has finished, nothing is reserved and nobody is listed, check or no check. */
  lemma DrainedWhenFinished(trace: seq<State>, events: seq<Event>, checked: bool, n: nat)
    requires IsRun(trace, events, checked) && n <= |events|
    requires forall c :: c in trace[n].routines ==> trace[n].routines[c].at == Finished
    ensures Reserved(trace[n].xuids) == {} && trace[n].sessions == {}
  {
    RunKeepsInv(trace, events, checked, n);
    forall c, xuid ensures !Holds(trace[n], c, xuid) {}
  }

  // ---------------------------------------------------------------------------
  // Exactly when an account can be listed twice
  // ---------------------------------------------------------------------------

  ghost predicate ListedTwice(s: State, xuid: string) {
    exists c, d :: c in s.sessions && d in s.sessions && c != d
                   && c in s.routines && s.routines[c].xuid == xuid && d in s.routines && s.routines[d].xuid == xuid
  }

  ghost predicate CanListTwice(checked: bool, xuid: string) {
    exists trace, events :: IsRun(trace, events, checked) && ListedTwice(trace[|events|], xuid)
  }

  lemma {:induction false} ExtendRun(trace: seq<State>, events: seq<Event>, checked: bool, e: Event)
    requires IsRun(trace, events, checked) && Enabled(trace[|events|], e)
    ensures IsRun(trace + [Next(trace[|events|], e, checked)], events + [e], checked)
  {
    hide Next, Enabled;
  }

  /** Brings one more connection of the account all the way into the session table. */
  lemma Join(trace: seq<State>, events: seq<Event>, checked: bool, c: Connection, xuid: string)
    returns (longer: seq<State>, more: seq<Event>)
    requires |trace| == |events| + 1 && IsRun(trace, events, checked) && c !in trace[|events|].routines
    requires !checked || xuid == ""
    ensures |longer| == |more| + 1 && IsRun(longer, more, checked)
    ensures longer[|more|].sessions == trace[|events|].sessions + {c}
    ensures longer[|more|].routines.Keys == trace[|events|].routines.Keys + {c}
    ensures longer[|more|].routines[c].xuid == xuid
    ensures forall d :: d in trace[|events|].routines ==> longer[|more|].routines[d] == trace[|events|].routines[d]
  {
    hide IsRun;
    longer, more := Step(trace, events, checked, Connect(c, xuid));
    longer, more := Step(longer, more, checked, Reserve(c));
    longer, more := Step(longer, more, checked, Accept(c, true));
    longer, more := Step(longer, more, checked, Register(c));
  }

  lemma Step(trace: seq<State>, events: seq<Event>, checked: bool, e: Event) returns (longer: seq<State>, more: seq<Event>)
    requires |trace| == |events| + 1 && IsRun(trace, events, checked) && Enabled(trace[|events|], e)
    ensures |longer| == |more| + 1 && IsRun(longer, more, checked)
    ensures longer[|more|] == Next(trace[|events|], e, checked)
  {
    ExtendRun(trace, events, checked, e);
    longer, more := trace + [Next(trace[|events|], e, checked)], events + [e];
  }

  /** An account can be listed twice exactly when the check is off or the account is anonymous. */
  lemma ListedTwiceIffUnguarded(checked: bool, xuid: string)
    ensures CanListTwice(checked, xuid) <==> !checked || xuid == ""
  {
    hide Next, Enabled;
    if !checked || xuid == "" {
      assert IsRun([INITIAL], [], checked);
      var one, first := Join([INITIAL], [], checked, 0, xuid);
      var two, second := Join(one, first, checked, 1, xuid);
      assert ListedTwice(two[|second|], xuid) by {
        assert 0 in two[|second|].sessions && 1 in two[|second|].sessions;
      }
    } else if CanListTwice(checked, xuid) {
      var trace: seq<State>, events: seq<Event> :| IsRun(trace, events, checked) && ListedTwice(trace[|events|], xuid);
      var last := trace[|events|];
      var c, d :| c in last.sessions && d in last.sessions && c != d
                  && c in last.routines && last.routines[c].xuid == xuid && d in last.routines && last.routines[d].xuid == xuid;
      RegisteredAreDistinct(trace, events, |events|, c, d);
    }
  }
}
