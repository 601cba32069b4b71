/**
 Revalidation across fetches (If-Modified-Since, section 13.1.3 of RFC 9110; 304,
 section 15.4.5 of RFC 9110). The client remembers a stamp before it knows whether the
 payload builds, so what a 304 vouches for and what is published can come apart: here
 is exactly when.
 */
module Revalidation {
  import opened Wrappers
  import opened Numbers
  import opened Claims
  import opened Snapshots
  import opened Metrics
  import opened Refresh

  /** What each version of the server's data contains, by its Last-Modified stamp. */
  type Catalogue = map<string, Rows>

  /** The client between two fetches; `held` is the version whose payload is published. */
  datatype Client = Client(lastModified: string, held: Option<string>, atomics: Published)

  /** One fetch: the version the server was at when it answered, and what the fetch delivered. */
  datatype Round = Round(current: string, outcome: FetchOutcome, now: Time)

  const FRESH := Client("", None, Published(None, 0, Ready))

  /**
   The server stamps every 200 with the version it sends, and answers 304 only to a request
   whose If-Modified-Since names its current version; the client sends that header only when
   it remembers a stamp.
   */
  ghost predicate Honest(catalogue: Catalogue, lastModified: string, round: Round) {
    && round.current in catalogue && round.current != ""
    && match round.outcome
       case Failed(_) => true
       case Payload(rows, stamp) => stamp == round.current && rows == catalogue[stamp]
       case NotModified(stamp) => lastModified == round.current && (stamp == "" || stamp == round.current)
  }

  ghost predicate FetchRound(before: Client, round: Round, after: Client) {
    && after.lastModified == Remember(before.lastModified, round.outcome)
    && FetchEffect(before.atomics, round.outcome, round.now, after.atomics)
    && after.held == if round.outcome.Payload? && Buildable(round.outcome.rows) then Some(round.current) else before.held
  }

  ghost predicate IsHistory(catalogue: Catalogue, clients: seq<Client>, rounds: seq<Round>) {
    && |clients| == |rounds| + 1
    && clients[0] == FRESH
    && forall i :: 0 <= i < |rounds| ==>
         Honest(catalogue, clients[i].lastModified, rounds[i]) && FetchRound(clients[i], rounds[i], clients[i + 1])
  }

  /** The remembered stamp is that of a version, and it is the one held whenever it can be built. */
  ghost predicate Coupled(catalogue: Catalogue, c: Client) {
    && (c.atomics.snapshot.Some? <==> c.held.Some?)
    && (c.held.Some? ==>
          && c.held.value in catalogue && Buildable(catalogue[c.held.value])
          && BuiltFrom(c.atomics.snapshot.value, catalogue[c.held.value]))
    && (c.lastModified == "" ==> c.held.None?)
    && (c.lastModified != "" ==> c.lastModified in catalogue)
    && (c.lastModified != "" && Buildable(catalogue[c.lastModified]) ==> c.held == Some(c.lastModified))
  }

  lemma RoundKeepsCoupling(catalogue: Catalogue, before: Client, round: Round, after: Client)
    requires Coupled(catalogue, before) && Honest(catalogue, before.lastModified, round) && FetchRound(before, round, after)
    ensures Coupled(catalogue, after)
  {
    hide Buildable, BuiltFrom, Revalidated;
    if before.held.Some? {
      RevalidatedHolds(before.atomics.snapshot.value, catalogue[before.held.value], before.atomics.generation + 1, round.now);
    }
  }

  lemma {:induction false} HistoryIsCoupled(catalogue: Catalogue, clients: seq<Client>, rounds: seq<Round>, n: nat)
    requires IsHistory(catalogue, clients, rounds) && n <= |rounds|
    ensures Coupled(catalogue, clients[n])
  {
    hide Coupled, Honest, FetchRound;
    if n == 0 {
      FreshIsCoupled(catalogue);
    } else {
      HistoryIsCoupled(catalogue, clients, rounds, n - 1);
      assert FetchRound(clients[n - 1], rounds[n - 1], clients[n - 1 + 1]);
      RoundKeepsCoupling(catalogue, clients[n - 1], rounds[n - 1], clients[n]);
    }
  }

  lemma FreshIsCoupled(catalogue: Catalogue)
    ensures Coupled(catalogue, FRESH)
  {
  }

  /**
   In every history, a 304 leaves the published snapshot holding the server's current
   version exactly when that version's payload builds.
   */
  lemma NotModifiedVouchesForWhatBuilds(catalogue: Catalogue, clients: seq<Client>, rounds: seq<Round>, n: nat)
    requires IsHistory(catalogue, clients, rounds) && n < |rounds| && rounds[n].outcome.NotModified?
    ensures rounds[n].current in catalogue
    ensures clients[n + 1].held == Some(rounds[n].current) <==> Buildable(catalogue[rounds[n].current])
    ensures Buildable(catalogue[rounds[n].current]) ==>
              && clients[n + 1].atomics.snapshot.Some? && clients[n + 1].atomics.failure == Ready
              && BuiltFrom(clients[n + 1].atomics.snapshot.value, catalogue[rounds[n].current])
              && clients[n + 1].atomics.snapshot.value.fetchedAt == rounds[n].now
  {
    hide Buildable, BuiltFrom;
    HistoryIsCoupled(catalogue, clients, rounds, n);
    HistoryIsCoupled(catalogue, clients, rounds, n + 1);
  }

  /** If every version builds, a 304 always revalidates the version held and never finds nothing to revalidate. */
  lemma NeverWithoutSnapshot(catalogue: Catalogue, clients: seq<Client>, rounds: seq<Round>, n: nat)
    requires IsHistory(catalogue, clients, rounds) && n < |rounds| && rounds[n].outcome.NotModified?
    requires forall i :: 0 <= i < n && rounds[i].outcome.Payload? ==> Buildable(rounds[i].outcome.rows)
    ensures clients[n].atomics.snapshot.Some? && clients[n].held == Some(rounds[n].current)
  {
    hide Buildable, BuiltFrom, FetchEffect;
    HistoryIsCoupled(catalogue, clients, rounds, n);
    StampWasSent(catalogue, clients, rounds, n);
  }

  /** A remembered stamp came with a payload of an earlier round. */
  lemma {:induction false} StampWasSent(catalogue: Catalogue, clients: seq<Client>, rounds: seq<Round>, n: nat)
    requires IsHistory(catalogue, clients, rounds) && n <= |rounds| && clients[n].lastModified != ""
    ensures exists i :: 0 <= i < n && rounds[i].outcome.Payload? && rounds[i].current == clients[n].lastModified
                        && rounds[i].current in catalogue && rounds[i].outcome.rows == catalogue[rounds[i].current]
  {
    hide Buildable, BuiltFrom, FetchEffect;
    if n > 0 {
      assert FetchRound(clients[n - 1], rounds[n - 1], clients[n - 1 + 1]);
      if !rounds[n - 1].outcome.Payload? {
        StampWasSent(catalogue, clients, rounds, n - 1);
      }
    }
  }

  // ---------------------------------------------------------------------------
  // The short run that comes apart
  // ---------------------------------------------------------------------------

  /** A row nobody owns. */
  const OWNERLESS :=
    PlayerClaim("c", "", Location("minecraft:overworld", Vector2(Finite(0.0), Finite(0.0)), Vector2(Finite(1.0), Finite(1.0))), [], [])

  const TWO_VERSIONS: Catalogue := map["monday" := map[], "tuesday" := map["c" := OWNERLESS]]

  lemma TuesdayDoesNotBuild()
    ensures Buildable(TWO_VERSIONS["monday"]) && !Buildable(TWO_VERSIONS["tuesday"])
  {
    hide Stored, Indexable;
    assert "c" in TWO_VERSIONS["tuesday"];
    assert !Acceptable("c", OWNERLESS);
  }

  function EmptySnapshot(generation: nat, now: Time): Snapshot {
    Snapshot(POLICY_VERSION, SCHEMA_VERSION, generation, now, now, 0, 0, [], map[])
  }

  lemma EmptyIsBuilt(generation: nat, now: Time)
    ensures BuiltFrom(EmptySnapshot(generation, now), map[])
  {
    EmptyIndex();
    var keys: seq<string> := [];
    assert ListsRows(keys, map[], []);
  }

  /**
   A payload, then one that is rejected, then a 304: the snapshot of the first version is
   marked fresh although the server has moved on.
   */
  lemma RejectedThenRevalidated(now: Time) returns (clients: seq<Client>, rounds: seq<Round>)
    ensures |rounds| == 3 && IsHistory(TWO_VERSIONS, clients, rounds)
    ensures rounds[2].outcome == NotModified("") && rounds[2].current == "tuesday"
    ensures clients[3].held == Some("monday") && clients[3].atomics.failure == Ready
    ensures clients[3].atomics.snapshot.Some? && clients[3].atomics.snapshot.value.fetchedAt == now
  {
    hide Buildable, BuiltFrom;
    TuesdayDoesNotBuild();
    EmptyIsBuilt(1, now);
    rounds := [
      Round("monday", Payload(map[], "monday"), now),
      Round("tuesday", Payload(map["c" := OWNERLESS], "tuesday"), now),
      Round("tuesday", NotModified(""), now)];
    var built := EmptySnapshot(1, now);
    var again := Revalidated(built, 3, now);
    clients := [
      FRESH,
      Client("monday", Some("monday"), Published(Some(built), 1, Ready)),
      Client("tuesday", Some("monday"), Published(Some(built), 2, Invalid)),
      Client("tuesday", Some("monday"), Published(Some(again), 3, Ready))];
    assert FetchRound(clients[0], rounds[0], clients[1]);
    assert FetchRound(clients[1], rounds[1], clients[2]);
    assert FetchRound(clients[2], rounds[2], clients[3]);
  }

  /** A rejected first payload followed by a 304: there is nothing to revalidate. */
  lemma RejectedFirst(now: Time) returns (clients: seq<Client>, rounds: seq<Round>)
    ensures |rounds| == 2 && IsHistory(TWO_VERSIONS, clients, rounds)
    ensures rounds[1].outcome == NotModified("") && clients[1].atomics.snapshot.None?
    ensures clients[2].atomics.failure == RefreshFailed && clients[2].atomics.snapshot.None?
  {
    hide Buildable, BuiltFrom;
    TuesdayDoesNotBuild();
    rounds := [
      Round("tuesday", Payload(map["c" := OWNERLESS], "tuesday"), now),
      Round("tuesday", NotModified(""), now)];
    clients := [
      FRESH,
      Client("tuesday", None, Published(None, 1, Invalid)),
      Client("tuesday", None, Published(None, 1, RefreshFailed))];
    assert FetchRound(clients[0], rounds[0], clients[1]);
    assert FetchRound(clients[1], rounds[1], clients[2]);
  }
}
