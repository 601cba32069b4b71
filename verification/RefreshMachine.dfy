/**
 The refresh protocol under interleaving. One writer holds the refresh lock and stores
 the snapshot pointer and the failure status in two separate atomic steps; any number of
 lock-free readers load the same two atomics in two separate steps. Every theorem is
 about every finite interleaving.
 */
module RefreshMachine {
  import opened Wrappers
  import opened Snapshots
  import opened Metrics
  import opened Refresh

  type Reader = nat

  /** Where the fetch that holds the lock stands. */
  datatype Writer =
    | Idle
    | LoadingCurrent(now: Time)
    | Building(rows: Rows, now: Time)
    | StoringPointer(next: Snapshot, rows: Rows)
    | StoringReady
    | StoringFailure(status: QueryStatus)

  /** What a reader that has loaded the pointer holds; `rows` is the payload behind it. */
  datatype Loaded = Loaded(snapshot: Option<Snapshot>, rows: Option<Rows>, now: Time)

  /** A finished query of a reader. */
  datatype Reply = Reply(loaded: Loaded, status: QueryStatus)

  datatype State = State(
    atomics: Published,
    writer: Writer,
    lastBuilt: Option<Rows>,
    history: seq<Snapshot>,
    loading: map<Reader, Loaded>,
    replies: map<Reader, seq<Reply>>)

  datatype Event =
    | FetchReturns(outcome: FetchOutcome, now: Time)
    | LoadCurrent
    | FinishBuild(built: Option<Snapshot>)
    | StorePointer
    | StoreStatus
    | ReaderLoads(reader: Reader, now: Time)
    | ReaderFinishes(reader: Reader)

  const INITIAL := State(Published(None, 0, Ready), Idle, None, [], map[], map[])

  function RepliesOf(s: State, reader: Reader): seq<Reply> {
    if reader in s.replies then s.replies[reader] else []
  }

  ghost predicate Enabled(s: State, e: Event) {
    match e
    case FetchReturns(_, _) => s.writer == Idle
    case LoadCurrent => s.writer.LoadingCurrent?
    case FinishBuild(built) =>
      && s.writer.Building?
      && (built.Some? <==> Buildable(s.writer.rows))
      && (built.Some? ==>
            && BuiltFrom(built.value, s.writer.rows)
            && built.value.generation == s.atomics.generation + 1
            && built.value.fetchedAt == s.writer.now)
    case StorePointer => s.writer.StoringPointer?
    case StoreStatus => s.writer == StoringReady || s.writer.StoringFailure?
    case ReaderLoads(reader, _) => reader !in s.loading
    case ReaderFinishes(reader) => reader in s.loading
  }

  function Next(s: State, e: Event, maxAge: int): State
    requires Enabled(s, e)
  {
    match e
    case FetchReturns(outcome, now) =>
      s.(writer := match outcome
         case Failed(_) => StoringFailure(RefreshFailed)
         case NotModified(_) => LoadingCurrent(now)
         case Payload(rows, _) => Building(rows, now))
    case LoadCurrent =>
      if s.atomics.snapshot.None? || s.lastBuilt.None? then s.(writer := StoringFailure(RefreshFailed))
      else
        var generation := s.atomics.generation + 1;
        s.(atomics := s.atomics.(generation := generation),
           writer := StoringPointer(Revalidated(s.atomics.snapshot.value, generation, s.writer.now), s.lastBuilt.value))
    case FinishBuild(built) =>
      s.(atomics := s.atomics.(generation := s.atomics.generation + 1),
         writer := if built.Some? then StoringPointer(built.value, s.writer.rows) else StoringFailure(Invalid))
    case StorePointer =>
      s.(atomics := s.atomics.(snapshot := Some(s.writer.next)),
         history := s.history + [s.writer.next],
         lastBuilt := Some(s.writer.rows),
         writer := StoringReady)
    case StoreStatus =>
      s.(atomics := s.atomics.(failure := if s.writer == StoringReady then Ready else s.writer.status),
         writer := Idle)
    case ReaderLoads(reader, now) =>
      s.(loading := s.loading[reader := Loaded(s.atomics.snapshot, s.lastBuilt, now)])
    case ReaderFinishes(reader) =>
      var loaded := s.loading[reader];
      var reply := Reply(loaded, Answer(loaded.snapshot, s.atomics.failure, maxAge, loaded.now));
      s.(loading := s.loading - {reader},
         replies := s.replies[reader := RepliesOf(s, reader) + [reply]])
  }

  /** `trace` is a run: it starts at the beginning and takes one enabled step at a time. */
  ghost predicate IsRun(trace: seq<State>, events: seq<Event>, maxAge: int) {
    && |trace| == |events| + 1
    && trace[0] == INITIAL
    && forall i :: 0 <= i < |events| ==> Enabled(trace[i], events[i]) && trace[i + 1] == Next(trace[i], events[i], maxAge)
  }

  // ---------------------------------------------------------------------------
  // The invariant
  // ---------------------------------------------------------------------------

  /** How recent a pointer is: nil comes before every generation. */
  function Rank(snapshot: Option<Snapshot>): nat {
    if snapshot.None? then 0 else snapshot.value.generation
  }

  ghost predicate Holds(snapshot: Snapshot, rows: Rows) {
    Buildable(rows) && BuiltFrom(snapshot, rows)
  }

  /** What the writer and the atomics keep. */
  ghost predicate WriterInv(s: State) {
    && (s.atomics.snapshot.Some? <==> s.history != [])
    && (s.history != [] ==> s.atomics.snapshot == Some(s.history[|s.history| - 1]))
    && (s.atomics.snapshot.Some? <==> s.lastBuilt.Some?)
    && (s.atomics.snapshot.Some? ==> Holds(s.atomics.snapshot.value, s.lastBuilt.value))
    && (forall i :: 0 <= i < |s.history| ==> 0 < s.history[i].generation <= s.atomics.generation)
    && (forall i, j :: 0 <= i < j < |s.history| ==> s.history[i].generation < s.history[j].generation)
    && (s.writer.StoringPointer? ==>
          && Holds(s.writer.next, s.writer.rows)
          && 0 < s.writer.next.generation == s.atomics.generation
          && forall i :: 0 <= i < |s.history| ==> s.history[i].generation < s.atomics.generation)
    && (s.writer.StoringFailure? ==> s.writer.status == RefreshFailed || s.writer.status == Invalid)
    && s.atomics.failure in {Ready, RefreshFailed, Invalid}
  }

  /** A loaded pointer is nil or one of the published snapshots, with its payload. */
  ghost predicate LoadedOk(s: State, loaded: Loaded) {
    && (loaded.snapshot.Some? <==> loaded.rows.Some?)
    && (loaded.snapshot.Some? ==> loaded.snapshot.value in s.history && Holds(loaded.snapshot.value, loaded.rows.value))
    && Rank(loaded.snapshot) <= Rank(s.atomics.snapshot)
  }

  ghost predicate ReplyOk(s: State, reply: Reply, maxAge: int) {
    && LoadedOk(s, reply.loaded)
    && reply.status in {Ready, Missing, Stale, RefreshFailed, Invalid}
    && (reply.status == Ready <==> reply.loaded.snapshot.Some? && reply.loaded.snapshot.value.Age(reply.loaded.now) <= maxAge)
  }

  ghost predicate Ordered(replies: seq<Reply>) {
    forall i, j :: 0 <= i < j < |replies| ==> Rank(replies[i].loaded.snapshot) <= Rank(replies[j].loaded.snapshot)
  }

  ghost predicate ReaderInv(s: State, maxAge: int) {
    && (forall r :: r in s.loading ==> LoadedOk(s, s.loading[r]))
    && (forall r :: r in s.replies ==> Ordered(s.replies[r]))
    && (forall r :: r in s.replies ==> forall i :: 0 <= i < |s.replies[r]| ==> ReplyOk(s, s.replies[r][i], maxAge))
    && (forall r :: r in s.replies && r in s.loading ==>
          forall i :: 0 <= i < |s.replies[r]| ==> Rank(s.replies[r][i].loaded.snapshot) <= Rank(s.loading[r].snapshot))
  }

  /** A snapshot that was built answers by its age alone: it is always supported. */
  lemma BuiltIsSupported(snapshot: Snapshot, rows: Rows)
    requires Holds(snapshot, rows)
    ensures snapshot.Supported()
  {
  }

  lemma RevalidatedStillHolds(snapshot: Snapshot, rows: Rows, generation: nat, now: Time)
    requires Holds(snapshot, rows)
    ensures Holds(Revalidated(snapshot, generation, now), rows)
  {
    hide Buildable, BuiltFrom, Revalidated;
    RevalidatedHolds(snapshot, rows, generation, now);
  }

  lemma WriterStep(s: State, e: Event, maxAge: int)
    requires WriterInv(s) && Enabled(s, e)
    ensures WriterInv(Next(s, e, maxAge))
    ensures Rank(s.atomics.snapshot) <= Rank(Next(s, e, maxAge).atomics.snapshot)
  {
    hide Holds, Buildable, BuiltFrom, Answer, Revalidated;
    BuiltHolds(e, s.writer);
    if e.LoadCurrent? && s.atomics.snapshot.Some? {
      assert s.lastBuilt.Some?;
      RevalidatedGeneration(s.atomics.snapshot.value, s.atomics.generation + 1, s.writer.now);
      RevalidatedStillHolds(s.atomics.snapshot.value, s.lastBuilt.value, s.atomics.generation + 1, s.writer.now);
    }
  }

  lemma BuiltHolds(e: Event, writer: Writer)
    ensures e.FinishBuild? && e.built.Some? && writer.Building? && Buildable(writer.rows) && BuiltFrom(e.built.value, writer.rows)
            ==> Holds(e.built.value, writer.rows)
  {
  }

  lemma RevalidatedGeneration(snapshot: Snapshot, generation: nat, now: Time)
    ensures Revalidated(snapshot, generation, now).generation == generation
  {
  }

  lemma LoadedStaysOk(s: State, e: Event, maxAge: int, loaded: Loaded)
    requires WriterInv(s) && Enabled(s, e) && LoadedOk(s, loaded)
    ensures LoadedOk(Next(s, e, maxAge), loaded)
  {
    hide Holds, Answer, Revalidated;
    WriterStep(s, e, maxAge);
  }

  /** What readers hold and were answered stays in good standing, and is never ahead of the pointer. */
  lemma ReadersStayOk(s: State, e: Event, maxAge: int)
    requires WriterInv(s) && ReaderInv(s, maxAge) && Enabled(s, e)
    ensures forall r :: r in s.loading ==> LoadedOk(Next(s, e, maxAge), s.loading[r])
    ensures forall r, i :: r in s.replies && 0 <= i < |s.replies[r]| ==>
              && ReplyOk(Next(s, e, maxAge), s.replies[r][i], maxAge)
              && Rank(s.replies[r][i].loaded.snapshot) <= Rank(s.atomics.snapshot)
  {
    hide Next, Enabled, Holds, WriterInv, LoadedOk, Rank;
    forall r | r in s.loading ensures LoadedOk(Next(s, e, maxAge), s.loading[r]) {
      LoadedStaysOk(s, e, maxAge, s.loading[r]);
    }
    forall r, i | r in s.replies && 0 <= i < |s.replies[r]|
      ensures ReplyOk(Next(s, e, maxAge), s.replies[r][i], maxAge)
      ensures Rank(s.replies[r][i].loaded.snapshot) <= Rank(s.atomics.snapshot)
    {
      LoadedStaysOk(s, e, maxAge, s.replies[r][i].loaded);
      LoadedIsNotAhead(s, s.replies[r][i].loaded);
    }
  }

  /** What an event does to the readers. */
  lemma ReadersAfter(s: State, e: Event, maxAge: int)
    requires Enabled(s, e)
    ensures var t := Next(s, e, maxAge);
            match e
            case ReaderLoads(reader, now) =>
              && t.loading == s.loading[reader := Loaded(s.atomics.snapshot, s.lastBuilt, now)]
              && t.replies == s.replies && reader !in s.loading
            case ReaderFinishes(reader) =>
              && reader in s.loading && t.loading == s.loading - {reader}
              && t == s.(loading := t.loading, replies := t.replies)
              && t.replies == s.replies[reader := RepliesOf(s, reader) +
                   [Reply(s.loading[reader], Answer(s.loading[reader].snapshot, s.atomics.failure, maxAge, s.loading[reader].now))]]
            case _ => t.loading == s.loading && t.replies == s.replies
  {
    hide Answer, Buildable, BuiltFrom, Revalidated;
  }

  lemma ReaderStep(s: State, e: Event, maxAge: int)
    requires WriterInv(s) && ReaderInv(s, maxAge) && Enabled(s, e)
    ensures ReaderInv(Next(s, e, maxAge), maxAge)
  {
    hide Next, Enabled, Answer, WriterInv, LoadedOk, ReplyOk, Rank;
    ReadersStayOk(s, e, maxAge);
    ReadersAfter(s, e, maxAge);
    if e.ReaderLoads? {
      FreshLoadOk(s, e.now);
      LoadedStaysOk(s, e, maxAge, Loaded(s.atomics.snapshot, s.lastBuilt, e.now));
    } else if e.ReaderFinishes? {
      FinishKeepsReaders(s, e.reader, Next(s, e, maxAge), maxAge);
    }
  }

  /** A reader's answer joins its earlier ones in order. */
  lemma FinishKeepsReaders(s: State, reader: Reader, t: State, maxAge: int)
    requires WriterInv(s) && ReaderInv(s, maxAge) && reader in s.loading
    requires var loaded := s.loading[reader];
             && t.loading == s.loading - {reader}
             && t.replies == s.replies[reader := RepliesOf(s, reader) +
                  [Reply(loaded, Answer(loaded.snapshot, s.atomics.failure, maxAge, loaded.now))]]
    requires t == s.(loading := t.loading, replies := t.replies)
    ensures ReaderInv(t, maxAge)
  {
    hide Answer, WriterInv, Rank;
    AnswerIsSafe(s, s.loading[reader], maxAge);
  }

  lemma LoadedIsNotAhead(s: State, loaded: Loaded)
    requires LoadedOk(s, loaded)
    ensures Rank(loaded.snapshot) <= Rank(s.atomics.snapshot)
  {
  }

  lemma FreshLoadOk(s: State, now: Time)
    requires WriterInv(s)
    ensures LoadedOk(s, Loaded(s.atomics.snapshot, s.lastBuilt, now))
  {
    hide Holds;
  }

  /** The two loads of a reader may straddle any number of stores: the answer is still safe. */
  lemma AnswerIsSafe(s: State, loaded: Loaded, maxAge: int)
    requires WriterInv(s) && LoadedOk(s, loaded)
    ensures ReplyOk(s, Reply(loaded, Answer(loaded.snapshot, s.atomics.failure, maxAge, loaded.now)), maxAge)
  {
    hide Holds, Rank;
    if loaded.snapshot.Some? {
      BuiltIsSupported(loaded.snapshot.value, loaded.rows.value);
    }
  }

  /** Both invariants hold in every state of every run. */
  lemma {:induction false} RunKeepsInvariants(trace: seq<State>, events: seq<Event>, maxAge: int, n: nat)
    requires IsRun(trace, events, maxAge) && n <= |events|
    ensures WriterInv(trace[n]) && ReaderInv(trace[n], maxAge)
  {
    hide WriterInv, ReaderInv, Enabled, Next;
    if n == 0 {
      InitialInv(maxAge);
    } else {
      RunKeepsInvariants(trace, events, maxAge, n - 1);
      assert trace[n - 1 + 1] == Next(trace[n - 1], events[n - 1], maxAge);
      WriterStep(trace[n - 1], events[n - 1], maxAge);
      ReaderStep(trace[n - 1], events[n - 1], maxAge);
    }
  }

  lemma InitialInv(maxAge: int)
    ensures WriterInv(INITIAL) && ReaderInv(INITIAL, maxAge)
  {
  }

  // ---------------------------------------------------------------------------
  // Which payload is published, read off the events alone
  // ---------------------------------------------------------------------------

  /** The payload the latest fetch delivered, if it delivered one. */
  function Delivered(events: seq<Event>): Option<Rows> {
    if events == [] then None
    else
      match events[|events| - 1]
      case FetchReturns(outcome, _) => if outcome.Payload? then Some(outcome.rows) else None
      case _ => Delivered(events[..|events| - 1])
  }

  /** That payload, once its build has finished with a snapshot. */
  function Built(events: seq<Event>): Option<Rows> {
    if events == [] then None
    else
      match events[|events| - 1]
      case FetchReturns(_, _) => None
      case FinishBuild(built) => if built.Some? then Delivered(events) else None
      case _ => Built(events[..|events| - 1])
  }

  /** The payload of the last fetch whose finished build was followed by the store of its pointer. */
  function LastPublished(events: seq<Event>): Option<Rows> {
    if events == [] then None
    else
      var before := events[..|events| - 1];
      if events[|events| - 1] == StorePointer && Built(before).Some? then Built(before) else LastPublished(before)
  }

  /** The time of the latest fetch. */
  function FetchedAt(events: seq<Event>): Option<Time> {
    if events == [] then None
    else
      match events[|events| - 1]
      case FetchReturns(_, now) => Some(now)
      case _ => FetchedAt(events[..|events| - 1])
  }

  /** The time of the fetch that stored the pointer last, be it a payload or a 304. */
  function LastPublishedAt(events: seq<Event>): Option<Time> {
    if events == [] then None
    else if events[|events| - 1] == StorePointer then FetchedAt(events[..|events| - 1])
    else LastPublishedAt(events[..|events| - 1])
  }

  /** The fetch times of the state are what the events say. */
  ghost predicate TimesInv(s: State, events: seq<Event>) {
    && (s.writer.LoadingCurrent? || s.writer.Building? ==> FetchedAt(events) == Some(s.writer.now))
    && (s.writer.StoringPointer? ==> FetchedAt(events) == Some(s.writer.next.fetchedAt))
    && (s.atomics.snapshot.Some? ==> LastPublishedAt(events) == Some(s.atomics.snapshot.value.fetchedAt))
  }

  lemma TimesStep(s: State, e: Event, maxAge: int, events: seq<Event>)
    requires TimesInv(s, events) && Enabled(s, e)
    ensures TimesInv(Next(s, e, maxAge), events + [e])
  {
    hide Buildable, BuiltFrom, Answer;
    assert (events + [e])[..|events|] == events;
  }

  lemma {:induction false} RunMatchesTimes(trace: seq<State>, events: seq<Event>, maxAge: int, n: nat)
    requires IsRun(trace, events, maxAge) && n <= |events|
    ensures TimesInv(trace[n], events[..n])
  {
    if n > 0 {
      RunMatchesTimes(trace, events, maxAge, n - 1);
      assert Enabled(trace[n - 1], events[n - 1]) && trace[n - 1 + 1] == Next(trace[n - 1], events[n - 1], maxAge);
      assert events[..n] == events[..n - 1] + [events[n - 1]];
      hide Next, Enabled, TimesInv;
      TimesStep(trace[n - 1], events[n - 1], maxAge, events[..n - 1]);
    }
  }

  /** The writer and the payload fields of the state are what the events say. */
  ghost predicate EventsInv(s: State, events: seq<Event>) {
    && s.lastBuilt == LastPublished(events)
    && (s.writer.Building? ==> Delivered(events) == Some(s.writer.rows) && Built(events) == None)
    && (s.writer.StoringPointer? ==>
          if Built(events).Some? then Some(s.writer.rows) == Built(events) else Some(s.writer.rows) == s.lastBuilt)
    && (s.writer.LoadingCurrent? ==> Built(events) == None)
  }

  lemma EventsStep(s: State, e: Event, maxAge: int, events: seq<Event>)
    requires EventsInv(s, events) && Enabled(s, e)
    ensures EventsInv(Next(s, e, maxAge), events + [e])
  {
    hide Buildable, BuiltFrom, Answer, Revalidated;
    assert (events + [e])[..|events|] == events;
  }

  lemma {:induction false} RunMatchesEvents(trace: seq<State>, events: seq<Event>, maxAge: int, n: nat)
    requires IsRun(trace, events, maxAge) && n <= |events|
    ensures EventsInv(trace[n], events[..n])
  {
    hide Next, Enabled, EventsInv;
    if n == 0 {
      NothingHappened();
      assert events[..0] == [];
    } else {
      RunMatchesEvents(trace, events, maxAge, n - 1);
      assert trace[n - 1 + 1] == Next(trace[n - 1], events[n - 1], maxAge);
      assert events[..n] == events[..n - 1] + [events[n - 1]];
      EventsStep(trace[n - 1], events[n - 1], maxAge, events[..n - 1]);
    }
  }

  lemma NothingHappened()
    ensures EventsInv(INITIAL, [])
  {
  }

  /**
   At every moment the published snapshot was built from the payload of the last fetch whose
   build finished and whose pointer was stored, and generations only rise over publications.
   */
  lemma PublishedIsLastBuilt(trace: seq<State>, events: seq<Event>, maxAge: int, n: nat)
    requires IsRun(trace, events, maxAge) && n <= |events|
    ensures trace[n].atomics.snapshot.Some? <==> LastPublished(events[..n]).Some?
    ensures trace[n].atomics.snapshot.Some? ==> BuiltFrom(trace[n].atomics.snapshot.value, LastPublished(events[..n]).value)
    ensures forall i, j :: 0 <= i < j < |trace[n].history| ==> trace[n].history[i].generation < trace[n].history[j].generation
  {
    RunKeepsInvariants(trace, events, maxAge, n);
    RunMatchesEvents(trace, events, maxAge, n);
    hide IsRun, BuiltFrom, Buildable, ReaderInv, Delivered, Built, LastPublished;
  }

  /** Between the end of a build and the store of its pointer, the payload before it is still the published one. */
  lemma {:induction false} BuiltIsNotYetPublished(trace: seq<State>, events: seq<Event>, maxAge: int, from: nat, to: nat)
    requires IsRun(trace, events, maxAge) && from < to <= |events| && events[from].FinishBuild?
    requires forall i :: from < i < to ==> events[i] != StorePointer
    ensures trace[to].atomics.snapshot == trace[from].atomics.snapshot
    ensures LastPublished(events[..to]) == LastPublished(events[..from])
  {
    hide Enabled, Built, Answer, BuiltFrom, Revalidated, Delivered;
    var e := events[to - 1];
    assert events[..to][..to - 1] == events[..to - 1] && events[..to][to - 1] == e;
    assert trace[to - 1 + 1] == Next(trace[to - 1], e, maxAge);
    if from < to - 1 {
      BuiltIsNotYetPublished(trace, events, maxAge, from, to - 1);
    }
  }

  // ---------------------------------------------------------------------------
  // What readers and operators may rely on
  // ---------------------------------------------------------------------------

  /** The pointer was loaded at event `m` of the run, with the payload that was then published. */
  ghost predicate LoadedAt(trace: seq<State>, events: seq<Event>, reader: Reader, loaded: Loaded, m: nat) {
    && m < |events| && m < |trace| && events[m] == ReaderLoads(reader, loaded.now)
    && loaded.snapshot == trace[m].atomics.snapshot && loaded.rows == LastPublished(events[..m])
  }

  ghost predicate LoadedBefore(trace: seq<State>, events: seq<Event>, n: nat, reader: Reader, loaded: Loaded) {
    exists m :: 0 <= m < n && LoadedAt(trace, events, reader, loaded, m)
  }

  /** Whatever a reader holds or was answered from was loaded by an earlier event of its own. */
  ghost predicate LoadsInv(trace: seq<State>, events: seq<Event>, n: nat)
    requires n < |trace|
  {
    && (forall r :: r in trace[n].loading ==> LoadedBefore(trace, events, n, r, trace[n].loading[r]))
    && (forall r, i :: r in trace[n].replies && 0 <= i < |trace[n].replies[r]| ==>
          LoadedBefore(trace, events, n, r, trace[n].replies[r][i].loaded))
  }

  lemma {:induction false} RunLoads(trace: seq<State>, events: seq<Event>, maxAge: int, n: nat)
    requires IsRun(trace, events, maxAge) && n <= |events|
    ensures LoadsInv(trace, events, n)
  {
    hide LoadedAt, Enabled, Answer;
    if n > 0 {
      RunLoads(trace, events, maxAge, n - 1);
      assert Enabled(trace[n - 1], events[n - 1]) && trace[n - 1 + 1] == Next(trace[n - 1], events[n - 1], maxAge);
      LoadsStep(trace, events, maxAge, n - 1);
    }
  }

  lemma LoadsStep(trace: seq<State>, events: seq<Event>, maxAge: int, n: nat)
    requires |trace| == |events| + 1 && n < |events| && IsRun(trace, events, maxAge)
    requires Enabled(trace[n], events[n]) && trace[n + 1] == Next(trace[n], events[n], maxAge)
    requires LoadsInv(trace, events, n)
    ensures LoadsInv(trace, events, n + 1)
  {
    hide LoadedAt, Answer, Buildable, BuiltFrom, Revalidated, IsRun;
    forall r, loaded | LoadedBefore(trace, events, n, r, loaded) ensures LoadedBefore(trace, events, n + 1, r, loaded) {
      var m :| 0 <= m < n && LoadedAt(trace, events, r, loaded, m);
    }
    if events[n].ReaderLoads? {
      FreshlyLoaded(trace, events, maxAge, n);
    }
  }

  lemma FreshlyLoaded(trace: seq<State>, events: seq<Event>, maxAge: int, n: nat)
    requires IsRun(trace, events, maxAge) && n < |events| && events[n].ReaderLoads?
    ensures LoadedAt(trace, events, events[n].reader, Loaded(trace[n].atomics.snapshot, trace[n].lastBuilt, events[n].now), n)
  {
    RunMatchesEvents(trace, events, maxAge, n);
  }

  /**
   A reader is told Ready exactly when at the event in which it loaded the pointer something
   was published, and the fetch that stored that pointer is recent at the time it asked about.
   What it then holds was built from the payload of the last fetch published by the load. It
   is never told Unsupported.
   */
  lemma ReadyIsSafe(trace: seq<State>, events: seq<Event>, maxAge: int, n: nat, reader: Reader, i: nat) returns (m: nat)
    requires IsRun(trace, events, maxAge) && n <= |events| && i < |RepliesOf(trace[n], reader)|
    ensures var reply := RepliesOf(trace[n], reader)[i];
            && m < n && events[m] == ReaderLoads(reader, reply.loaded.now)
            && reply.loaded.snapshot == trace[m].atomics.snapshot
            && reply.status != Unsupported
            && (reply.status == Ready <==>
                  reply.loaded.snapshot.Some? && LastPublishedAt(events[..m]).Some?
                  && Recent(LastPublishedAt(events[..m]).value, reply.loaded.now, maxAge))
            && (reply.loaded.snapshot.Some? ==>
                  && LastPublished(events[..m]).Some?
                  && BuiltFrom(reply.loaded.snapshot.value, LastPublished(events[..m]).value))
  {
    hide WriterInv, BuiltFrom, Buildable, LastPublished, LastPublishedAt;
    RunKeepsInvariants(trace, events, maxAge, n);
    RunLoads(trace, events, maxAge, n);
    assert ReplyOk(trace[n], trace[n].replies[reader][i], maxAge);
    assert LoadedBefore(trace, events, n, reader, trace[n].replies[reader][i].loaded);
    m :| 0 <= m < n && LoadedAt(trace, events, reader, trace[n].replies[reader][i].loaded, m);
    RunMatchesTimes(trace, events, maxAge, m);
  }

  /** One reader's successive pointers never go back: nil, then rising generations. */
  lemma ReaderNeverGoesBack(trace: seq<State>, events: seq<Event>, maxAge: int, n: nat, reader: Reader, i: nat, j: nat)
    requires IsRun(trace, events, maxAge) && n <= |events|
    requires i < j < |RepliesOf(trace[n], reader)|
    ensures Rank(RepliesOf(trace[n], reader)[i].loaded.snapshot) <= Rank(RepliesOf(trace[n], reader)[j].loaded.snapshot)
    ensures RepliesOf(trace[n], reader)[i].loaded.snapshot.Some? ==> RepliesOf(trace[n], reader)[j].loaded.snapshot.Some?
  {
    RunKeepsInvariants(trace, events, maxAge, n);
    var replies := trace[n].replies[reader];
    assert ReplyOk(trace[n], replies[i], maxAge);
    hide WriterInv, Holds, IsRun;
  }

  /** A fetch that is bound to fail: it was refused, has nothing to revalidate, or cannot build. */
  ghost predicate Doomed(s: State) {
    match s.writer
    case StoringFailure(_) => true
    case LoadingCurrent(_) => s.atomics.snapshot.None?
    case Building(rows, _) => !Buildable(rows)
    case _ => false
  }

  /** A doomed fetch ends without ever having touched the pointer, whatever the readers do meanwhile. */
  lemma {:induction false} FailedFetchKeepsPointer(trace: seq<State>, events: seq<Event>, maxAge: int, from: nat, to: nat)
    requires IsRun(trace, events, maxAge) && from <= to <= |events| && Doomed(trace[from])
    requires forall i :: from < i < to ==> trace[i].writer != Idle
    ensures trace[to].atomics.snapshot == trace[from].atomics.snapshot
    ensures trace[to].history == trace[from].history
    ensures trace[to].writer == Idle || Doomed(trace[to])
  {
    hide Next, Enabled, Doomed;
    if from < to {
      FailedFetchKeepsPointer(trace, events, maxAge, from, to - 1);
      assert to - 1 > from ==> trace[to - 1].writer != Idle;
      assert trace[to - 1 + 1] == Next(trace[to - 1], events[to - 1], maxAge);
      DoomedStep(trace[to - 1], events[to - 1], maxAge);
    }
  }

  lemma DoomedStep(s: State, e: Event, maxAge: int)
    requires Doomed(s) && Enabled(s, e)
    ensures Next(s, e, maxAge).atomics.snapshot == s.atomics.snapshot && Next(s, e, maxAge).history == s.history
    ensures Next(s, e, maxAge).writer == Idle || Doomed(Next(s, e, maxAge))
  {
    hide Buildable, BuiltFrom, Answer;
  }

  // ---------------------------------------------------------------------------
  // The uninterrupted fetch
  // ---------------------------------------------------------------------------

  /** Runs the writer's steps of one fetch back to back. */
  ghost function RunFetch(s: State, outcome: FetchOutcome, now: Time, built: Option<Snapshot>, maxAge: int): State
    requires s.writer == Idle && WriterInv(s)
    requires outcome.Payload? ==> Enabled(Next(s, FetchReturns(outcome, now), maxAge), FinishBuild(built))
  {
    var a := Next(s, FetchReturns(outcome, now), maxAge);
    var b := if a.writer.LoadingCurrent? then Next(a, LoadCurrent, maxAge)
             else if a.writer.Building? then Next(a, FinishBuild(built), maxAge) else a;
    var c := if b.writer.StoringPointer? then Next(b, StorePointer, maxAge) else b;
    Next(c, StoreStatus, maxAge)
  }

  /** Taken without interruption, the steps have exactly the effect proved of `Factory.Fetch`. */
  lemma StepsRefineFetch(s: State, outcome: FetchOutcome, now: Time, built: Option<Snapshot>, maxAge: int)
    requires s.writer == Idle && WriterInv(s)
    requires outcome.Payload? ==> Enabled(Next(s, FetchReturns(outcome, now), maxAge), FinishBuild(built))
    ensures FetchEffect(s.atomics, outcome, now, RunFetch(s, outcome, now, built, maxAge).atomics)
    ensures RunFetch(s, outcome, now, built, maxAge).writer == Idle
  {
    hide Buildable, BuiltFrom, Answer, Holds;
  }
}
