/**
 The session's claim check: from configuration, packet data, snapshot and dimension to
 one forwarded-or-denied decision, with its counters.
 */
module Decisions {
  import opened Wrappers
  import opened Numbers
  import opened Dimensions
  import opened Claims
  import opened Sequences
  import opened Snapshots
  import opened Lookup
  import opened Policy
  import opened PolicyTables
  import opened Metrics
  import opened Refresh

  /** The outcome a linear scan of all claims prescribes. */
  datatype Verdict =
    | Passed
    | FailedOpen(reason: QueryStatus)
    | Judged(cl: PlayerClaim)

  /** The name a packet dimension id stands for, if it stands for one. */
  ghost function Resolution(dimension: int32, definitions: seq<DimensionDefinition>): Option<string> {
    if exists name :: ResolvesTo(dimension, definitions, name) then
      var name :| ResolvesTo(dimension, definitions, name);
      Some(name)
    else None
  }

  lemma ResolutionIsUnique(dimension: int32, definitions: seq<DimensionDefinition>, name: string)
    requires ResolvesTo(dimension, definitions, name)
    ensures Resolution(dimension, definitions) == Some(name)
  {
    hide CanonicalDimension;
    var other :| ResolvesTo(dimension, definitions, other) && Resolution(dimension, definitions) == Some(other);
    if dimension < 0 || dimension > 2 {
      var i :| 0 <= i < |definitions| && definitions[i].dimensionType == dimension;
      assert CanonicalDimension(definitions[i].name) == (name, true);
    }
  }

  lemma UnresolvedIsNone(dimension: int32, definitions: seq<DimensionDefinition>)
    requires !exists name :: ResolvesTo(dimension, definitions, name)
    ensures Resolution(dimension, definitions) == None
  {
  }

  /** All claims of the dimension that contain the point. */
  function ScanHits(claims: seq<PlayerClaim>, dimension: string, x: Float32, z: Float32): seq<PlayerClaim> {
    Hits(Filter(claims, InDimension(dimension)), x, z)
  }

  /** What scanning every claim says: only a unique, unambiguous claim is judged. */
  ghost function Judge(
    prefilter: bool, data: ActionData, current: Option<Snapshot>, status: QueryStatus,
    dimension: int32, definitions: seq<DimensionDefinition>): Verdict
    requires status == Ready ==> current.Some?
  {
    if !prefilter then Passed
    else if data.Malformed? then FailedOpen(Invalid)
    else if status != Ready then FailedOpen(status)
    else if Resolution(dimension, definitions).None? then FailedOpen(UnknownDimension)
    else
      var hits := ScanHits(current.value.claims, Resolution(dimension, definitions).value, data.position.x, data.position.z);
      if |hits| >= 2 then FailedOpen(Overlap)
      else if |hits| == 1 then Judged(hits[0])
      else Passed
  }

  // ---------------------------------------------------------------------------
  // Down to the payload
  // ---------------------------------------------------------------------------

  /** The payload itself refuses: one row alone has the point, and the policy table does not allow the action on it. */
  ghost predicate PayloadRefuses(rows: Rows, dimension: string, actor: ClaimActor, action: ClaimAction, data: ActionData) {
    !data.Malformed? &&
    exists key ::
      && key in rows && OnlyRowAt(rows, key, dimension, data.position.x, data.position.z)
      && FiniteThroughout(rows[key]) && !Allowed(rows[key], actor, action, data, true)
  }

  /**
   End to end: with the prefilter on, an action is denied exactly when its data is well
   formed, the snapshot is ready, the dimension resolves, and the payload refuses it there.
   */
  lemma DeniedIffPayloadRefuses(
    snapshot: Snapshot, rows: Rows, conversion: Float32 -> int32, status: QueryStatus, dimension: int32,
    definitions: seq<DimensionDefinition>, actor: ClaimActor, action: ClaimAction, data: ActionData)
    requires Buildable(rows) && BuiltFrom(snapshot, rows)
    ensures var verdict := Judge(true, data, Some(snapshot), status, dimension, definitions);
            (verdict.Judged? && !Policy.ClaimActionPermitted(verdict.cl, actor, action, data)) <==>
            (status == Ready && Resolution(dimension, definitions).Some?
             && PayloadRefuses(rows, Resolution(dimension, definitions).value, actor, action, data))
  {
    hide BuiltFrom, Buildable, Policy.ClaimActionPermitted, PayloadRefuses, ScanHits, Resolution, IsOnlyRow, AllAcceptable;
    if !data.Malformed? && Resolution(dimension, definitions).Some? {
      var name := Resolution(dimension, definitions).value;
      ScanFindsTheRow(snapshot, rows, conversion, name, data.position.x, data.position.z);
      AreAcceptable(rows);
      RowRefuses(ScanHits(snapshot.claims, name, data.position.x, data.position.z), rows, name, actor, action, data);
    } else if data.Malformed? {
      MalformedIsNotRefused(rows, dimension, definitions, actor, action);
    }
  }

  lemma AreAcceptable(rows: Rows)
    requires Buildable(rows)
    ensures AllAcceptable(rows)
  {
  }

  lemma MalformedIsNotRefused(
    rows: Rows, dimension: int32, definitions: seq<DimensionDefinition>, actor: ClaimActor, action: ClaimAction)
    ensures forall name :: !PayloadRefuses(rows, name, actor, action, ActionData.Malformed)
  {
  }

  /** The sequence is the copy of the one row that has the point, and has one member only if there is such a row. */
  ghost predicate IsOnlyRow(hits: seq<PlayerClaim>, rows: Rows, name: string, x: Float32, z: Float32) {
    && (forall key :: key in rows && OnlyRowAt(rows, key, name, x, z) ==> hits == [Stored(key, rows[key])])
    && (|hits| == 1 ==> exists key :: OnlyRowAt(rows, key, name, x, z))
  }

  lemma ScanFindsTheRow(snapshot: Snapshot, rows: Rows, conversion: Float32 -> int32, name: string, x: Float32, z: Float32)
    requires Buildable(rows) && BuiltFrom(snapshot, rows)
    ensures IsOnlyRow(ScanHits(snapshot.claims, name, x, z), rows, name, x, z)
  {
    hide BuiltFrom, Buildable, OnlyRowAt, Hits, CellFor, Stored, InDimension, Filter;
    LookupFindsTheRow(snapshot, rows, conversion, name, x, z);
    IndexRefinesScan(snapshot, rows, conversion, name, x, z);
  }

  lemma RowRefuses(
    hits: seq<PlayerClaim>, rows: Rows, name: string, actor: ClaimActor, action: ClaimAction, data: ActionData)
    requires AllAcceptable(rows) && !data.Malformed? && IsOnlyRow(hits, rows, name, data.position.x, data.position.z)
    ensures (|hits| == 1 && !Policy.ClaimActionPermitted(hits[0], actor, action, data)) <==> PayloadRefuses(rows, name, actor, action, data)
  {
    hide Policy.ClaimActionPermitted, OnlyRowAt, Stored, Acceptable, Allowed, FiniteThroughout;
    var x, z := data.position.x, data.position.z;
    if key :| OnlyRowAt(rows, key, name, x, z) {
      OnlyRowIsARow(rows, key, name, x, z);
      StoredPermitsIffAllowed(key, rows[key], actor, action, data);
      if PayloadRefuses(rows, name, actor, action, data) {
        var other :| other in rows && OnlyRowAt(rows, other, name, x, z)
                     && FiniteThroughout(rows[other]) && !Allowed(rows[other], actor, action, data, true);
        OnlyRowsAgree(rows, key, other, name, x, z);
      }
    }
  }

  lemma OnlyRowIsARow(rows: Rows, key: string, dimension: string, x: Float32, z: Float32)
    requires OnlyRowAt(rows, key, dimension, x, z)
    ensures key in rows
  {
  }

  lemma OnlyRowsAgree(rows: Rows, a: string, b: string, dimension: string, x: Float32, z: Float32)
    requires OnlyRowAt(rows, a, dimension, x, z) && OnlyRowAt(rows, b, dimension, x, z)
    ensures a == b
  {
  }

  /** What the published payload prescribes: a recent snapshot, a known dimension, and a row that refuses. */
  ghost predicate Refusing(
    rows: Option<Rows>, publishedAt: Time, maxAge: int, now: Time, dimension: int32, definitions: seq<DimensionDefinition>,
    actor: ClaimActor, action: ClaimAction, data: ActionData)
  {
    && rows.Some? && Recent(publishedAt, now, maxAge) && Resolution(dimension, definitions).Some?
    && PayloadRefuses(rows.value, Resolution(dimension, definitions).value, actor, action, data)
  }

  /** The verdict of the scan, on the fields of the payload and the time of the last fetch. */
  lemma VerdictOnPayload(
    snapshot: Option<Snapshot>, rows: Option<Rows>, publishedAt: Time, failure: QueryStatus, maxAge: int, now: Time,
    conversion: Float32 -> int32, dimension: int32, definitions: seq<DimensionDefinition>,
    actor: ClaimActor, action: ClaimAction, data: ActionData)
    requires Backed(snapshot, rows) && Dated(snapshot, publishedAt)
    ensures var verdict := Judge(true, data, snapshot, Answer(snapshot, failure, maxAge, now), dimension, definitions);
            verdict.Judged? && !Policy.ClaimActionPermitted(verdict.cl, actor, action, data) <==>
            Refusing(rows, publishedAt, maxAge, now, dimension, definitions, actor, action, data)
  {
    if snapshot.Some? {
      ReadyIffRecent(snapshot.value, failure, maxAge, now);
      hide BuiltFrom, Buildable, Recent, PayloadRefuses, Policy.ClaimActionPermitted, Judge, Resolution;
      DeniedIffPayloadRefuses(snapshot.value, rows.value, conversion, Answer(snapshot, failure, maxAge, now),
                              dimension, definitions, actor, action, data);
    }
  }

  // ---------------------------------------------------------------------------
  // The session
  // ---------------------------------------------------------------------------

  lemma BackedCandidates(
    snapshot: Option<Snapshot>, rows: Option<Rows>, conversion: Float32 -> int32, dimension: string, x: Float32, z: Float32)
    requires Backed(snapshot, rows) && snapshot.Some?
    ensures Hits(snapshot.value.Candidates(conversion, dimension, x, z), x, z) == ScanHits(snapshot.value.claims, dimension, x, z)
  {
    hide Buildable, BuiltFrom, Hits, Filter;
    IndexRefinesScan(snapshot.value, rows.value, conversion, dimension, x, z);
  }

  class Session {
    const claimFactory: Factory?
    const claimPrefilter: bool
    const definitions: seq<DimensionDefinition>
    const xuid: string
    var dimension: int32
    var operator: bool

    constructor (factory: Factory?, prefilter: bool, definitions: seq<DimensionDefinition>, xuid: string, dimension: int32, operator: bool)
      ensures claimFactory == factory && claimPrefilter == prefilter && this.definitions == definitions
      ensures this.xuid == xuid && this.dimension == dimension && this.operator == operator
    {
      claimFactory, claimPrefilter, this.definitions := factory, prefilter, definitions;
      this.xuid, this.dimension, this.operator := xuid, dimension, operator;
    }

    function Actor(): ClaimActor
      reads this
    {
      ClaimActor(xuid, operator)
    }

    ghost predicate Valid()
      reads this, claimFactory
      reads if claimFactory == null then {} else {claimFactory.metrics} + claimFactory.metrics.Repr
    {
      claimFactory != null ==> claimFactory.Valid() && this !in claimFactory.metrics.Repr
    }

    /** The verdict a scan of the published claims prescribes for a query at `now`. */
    ghost function Prescribed(data: ActionData, now: Time): Verdict
      requires claimFactory != null
      reads this, claimFactory
    {
      Judge(claimPrefilter, data, claimFactory.snapshot,
            Answer(claimFactory.snapshot, claimFactory.failureStatus, claimFactory.maxSnapshotAge, now),
            dimension, definitions)
    }

    /**
     Decides one action. It reads a single bucket of the index, yet decides as the scan of
     all claims prescribes; it counts every decision once as seen and once as either
     forwarded or denied, and records the reason of every query that failed open.
     */
    method ClaimActionPermitted(conversion: Float32 -> int32, action: ClaimAction, data: ActionData, now: Time)
      returns (permitted: bool)
      requires Valid()
      modifies if claimFactory == null then {} else claimFactory.metrics.Repr
      ensures claimFactory == null ==> permitted
      ensures Valid()
      ensures claimFactory != null ==>
                var verdict := old(Prescribed(data, now));
                && permitted == (verdict.Judged? ==> Policy.ClaimActionPermitted(verdict.cl, Actor(), action, data))
                && claimFactory.metrics.seen[..] == Bumped(old(claimFactory.metrics.seen[..]), action.Code())
                && claimFactory.metrics.forwarded[..] ==
                     (if permitted then Bumped(old(claimFactory.metrics.forwarded[..]), action.Code())
                      else old(claimFactory.metrics.forwarded[..]))
                && claimFactory.metrics.denied[..] ==
                     (if permitted then old(claimFactory.metrics.denied[..])
                      else Bumped(old(claimFactory.metrics.denied[..]), action.Code()))
                && claimFactory.metrics.reasons[..] ==
                     (if verdict.FailedOpen? then Bumped(old(claimFactory.metrics.reasons[..]), verdict.reason.Code())
                      else old(claimFactory.metrics.reasons[..]))
      ensures claimFactory != null ==>
                (!permitted <==>
                 claimPrefilter && Refusing(claimFactory.rows, claimFactory.publishedAt, claimFactory.maxSnapshotAge, now,
                                            dimension, definitions, ClaimActor(xuid, operator), action, data))
    {
      hide Refusing, Recent, Backed, Dated, Buildable, BuiltFrom, Policy.ClaimActionPermitted, ResolvesTo,
        Hits, CellFor, Bumped, Answer, Filter, Resolution, ScanHits, Snapshot.Candidates;
      if claimFactory == null {
        return true;
      }
      var metrics := claimFactory.metrics;
      VerdictOnPayload(claimFactory.snapshot, claimFactory.rows, claimFactory.publishedAt, claimFactory.failureStatus,
                       claimFactory.maxSnapshotAge, now, conversion, dimension, definitions, ClaimActor(xuid, operator), action, data);
      if !claimPrefilter {
        metrics.Action(action.Code(), true);
        return true;
      }
      if data.Malformed? {
        metrics.Reason(Invalid);
        metrics.Action(action.Code(), true);
        return true;
      }
      var current, status := claimFactory.Snapshot(now);
      if status != Ready {
        metrics.Reason(status);
        metrics.Action(action.Code(), true);
        return true;
      }
      var name, ok := ClaimDimensionFromInt(dimension, definitions);
      if !ok {
        UnresolvedIsNone(dimension, definitions);
        metrics.Reason(UnknownDimension);
        metrics.Action(action.Code(), true);
        return true;
      }
      ResolutionIsUnique(dimension, definitions, name);
      var x, z := data.position.x, data.position.z;
      var candidates := current.value.Candidates(conversion, name, x, z);
      metrics.Candidates(|candidates|);
      BackedCandidates(claimFactory.snapshot, claimFactory.rows, conversion, name, x, z);
      var matched, ambiguous := SingleClaimAt(candidates, x, z);
      if ambiguous {
        metrics.Reason(Overlap);
        metrics.Action(action.Code(), true);
        return true;
      }
      if matched.None? {
        metrics.Action(action.Code(), true);
        return true;
      }
      permitted := Policy.ClaimActionPermitted(matched.value, Actor(), action, data);
      metrics.Action(action.Code(), permitted);
    }
  }

  /** The policy's escape for malformed claims is never taken for a claim of the snapshot. */
  lemma JudgedClaimIsValid(snapshot: Snapshot, rows: Rows, status: QueryStatus, dimension: int32,
    definitions: seq<DimensionDefinition>, data: ActionData)
    requires Buildable(rows) && BuiltFrom(snapshot, rows)
    ensures var verdict := Judge(true, data, Some(snapshot), status, dimension, definitions);
            verdict.Judged? ==> ValidClaim(verdict.cl) && verdict.cl in snapshot.claims
                                && CanonicalDimension(verdict.cl.location.dimension) == (verdict.cl.location.dimension, true)
  {
    hide BuiltFrom, Buildable, CanonicalDimension;
    var verdict := Judge(true, data, Some(snapshot), status, dimension, definitions);
    ClaimsAreWellFormed(snapshot, rows);
    if verdict.Judged? {
      var name := Resolution(dimension, definitions).value;
      FilterMembers(Filter(snapshot.claims, InDimension(name)), HoldsPoint(data.position.x, data.position.z), verdict.cl);
      FilterMembers(snapshot.claims, InDimension(name), verdict.cl);
    }
  }
}
