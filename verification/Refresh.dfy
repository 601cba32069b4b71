/**
 Fetching claims and publishing snapshots: the HTTP client with its retries and
 revalidation stamp, and the factory that swaps the published snapshot.
 */
module Refresh {
  import opened Wrappers
  import opened Numbers
  import opened Claims
  import opened Snapshots
  import opened Metrics

  // ---------------------------------------------------------------------------
  // One request
  // ---------------------------------------------------------------------------

  datatype ResponseModel = ResponseModel(key: string, data: PlayerClaim)

  datatype Body = Undecodable | Decoded(models: seq<ResponseModel>)

  datatype FetchError =
    | ServiceClosed
    | BadRequest
    | RequestFailed
    | DecodeFailed
    | DuplicateKey
    | RateLimited
    | UnexpectedStatus(code: nat)

  /** What the network does to one request; `stamp` is the Last-Modified header, "" if absent. */
  datatype Reply =
    | Unbuildable
    | NoResponse(temporary: bool)
    | Response(code: nat, stamp: string, body: Body)

  /** One turn of the retry loop: whether the service was closed by then, and the reply. */
  datatype Attempt = Attempt(closed: bool, reply: Reply)

  /** What a whole fetch delivers. */
  datatype FetchOutcome =
    | Failed(error: FetchError)
    | NotModified(stamp: string)
    | Payload(rows: Rows, stamp: string)

  const OK := 200
  const NOT_MODIFIED := 304
  const TOO_MANY_REQUESTS := 429
  const MAX_RETRIES := 3

  ghost predicate KeysDistinct(models: seq<ResponseModel>) {
    forall i, j :: 0 <= i < j < |models| ==> models[i].key != models[j].key
  }

  /** The rows of a decoded body, by key. */
  ghost predicate HasRows(models: seq<ResponseModel>, rows: Rows) {
    && (forall i :: 0 <= i < |models| ==> models[i].key in rows && rows[models[i].key] == models[i].data)
    && (forall key :: key in rows ==> exists i :: 0 <= i < |models| && models[i].key == key)
  }

  /** The reply makes the loop try again. */
  predicate Retried(attempt: Attempt) {
    && !attempt.closed
    && match attempt.reply
       case Unbuildable => false
       case NoResponse(temporary) => temporary
       case Response(code, _, body) => code != 304 && (code != 200 || body.Undecodable?)
  }

  /** What an attempt that is not retried delivers. */
  ghost predicate Delivers(attempt: Attempt, outcome: FetchOutcome)
    requires !Retried(attempt)
  {
    if attempt.closed then outcome == Failed(ServiceClosed)
    else
      match attempt.reply
      case Unbuildable => outcome == Failed(BadRequest)
      case NoResponse(_) => outcome == Failed(RequestFailed)
      case Response(code, stamp, body) =>
        if code == 304 then outcome == NotModified(stamp)
        else if KeysDistinct(body.models) then
          outcome.Payload? && outcome.stamp == stamp && HasRows(body.models, outcome.rows)
        else outcome == Failed(DuplicateKey)
  }

  /** The stamp remembered after a fetch: the response's, unless it carried none. */
  function Remember(lastModified: string, outcome: FetchOutcome): string {
    if outcome.Failed? || outcome.stamp == "" then lastModified else outcome.stamp
  }

  class Service {
    const enabled: bool
    var lastModified: string

    constructor (enabled: bool)
      ensures this.enabled == enabled && lastModified == ""
    {
      this.enabled := enabled;
      lastModified := "";
    }

    /**
     Fetches with up to MAX_RETRIES retries. The first attempt that is not retried decides;
     when every attempt is retried the fetch fails. A failed fetch leaves the stamp alone.
     A disabled service delivers no claims.
     */
    method FetchClaims(attempts: seq<Attempt>) returns (outcome: FetchOutcome)
      requires |attempts| == 4
      modifies `lastModified
      ensures lastModified == Remember(old(lastModified), outcome)
      ensures !enabled ==> outcome == Payload(map[], "")
      ensures enabled && (forall i :: 0 <= i < |attempts| ==> Retried(attempts[i])) ==> outcome.Failed?
      ensures enabled ==>
                forall n :: 0 <= n < |attempts| && !Retried(attempts[n]) && (forall i :: 0 <= i < n ==> Retried(attempts[i]))
                  ==> Delivers(attempts[n], outcome)
    {
      if !enabled {
        return Payload(map[], "");
      }
      var lastError := RequestFailed;
      for n := 0 to MAX_RETRIES + 1
        invariant forall i :: 0 <= i < n ==> Retried(attempts[i])
        invariant lastModified == old(lastModified)
      {
        if attempts[n].closed {
          return Failed(ServiceClosed);
        }
        var reply := attempts[n].reply;
        if reply.Unbuildable? {
          return Failed(BadRequest);
        }
        if reply.NoResponse? {
          lastError := RequestFailed;
          if reply.temporary {
            continue;
          }
          return Failed(RequestFailed);
        }
        var retry, result := HandleFetchResponse(attempts[n]);
        if retry {
          lastError := result.error;
          continue;
        }
        return result;
      }
      return Failed(lastError);
    }

    /** Reads one response. The stamp moves only with a 304 or with a 200 whose keys are distinct. */
    method HandleFetchResponse(attempt: Attempt) returns (retry: bool, outcome: FetchOutcome)
      requires !attempt.closed && attempt.reply.Response?
      modifies `lastModified
      ensures retry == Retried(attempt)
      ensures retry ==> outcome.Failed?
      ensures !retry ==> Delivers(attempt, outcome)
      ensures lastModified == Remember(old(lastModified), outcome)
    {
      var response := attempt.reply;
      if response.code == OK {
        if response.body.Undecodable? {
          return true, Failed(DecodeFailed);
        }
        var duplicate, rows := RowsOf(response.body.models);
        if duplicate {
          return false, Failed(DuplicateKey);
        }
        if response.stamp != "" {
          lastModified := response.stamp;
        }
        return false, Payload(rows, response.stamp);
      }
      if response.code == NOT_MODIFIED {
        if response.stamp != "" {
          lastModified := response.stamp;
        }
        return false, NotModified(response.stamp);
      }
      if response.code == TOO_MANY_REQUESTS {
        return true, Failed(RateLimited);
      }
      return true, Failed(UnexpectedStatus(response.code));
    }
  }

  /** Fills the row map, stopping at a key that is already there. */
  method RowsOf(models: seq<ResponseModel>) returns (duplicate: bool, rows: Rows)
    ensures duplicate <==> !KeysDistinct(models)
    ensures !duplicate ==> HasRows(models, rows)
  {
    rows := map[];
    for n := 0 to |models|
      invariant KeysDistinct(models[..n]) && HasRows(models[..n], rows)
    {
      if models[n].key in rows {
        var i :| 0 <= i < n && models[..n][i].key == models[n].key;
        assert models[i].key == models[n].key;
        return true, rows;
      }
      HasRowsNext(models, n, rows);
      rows := rows[models[n].key := models[n].data];
    }
    assert models[..|models|] == models;
    duplicate := false;
  }

  lemma HasRowsNext(models: seq<ResponseModel>, n: nat, rows: Rows)
    requires n < |models| && KeysDistinct(models[..n]) && HasRows(models[..n], rows) && models[n].key !in rows
    ensures KeysDistinct(models[..n + 1]) && HasRows(models[..n + 1], rows[models[n].key := models[n].data])
  {
    var before, after := models[..n], models[..n + 1];
    assert after[n] == models[n] && forall i :: 0 <= i < n ==> after[i] == before[i];
    forall i, j | 0 <= i < j < |after| ensures after[i].key != after[j].key {
      if j == n {
        assert before[i].key in rows;
      }
    }
    var updated := rows[models[n].key := models[n].data];
    forall key | key in updated
      ensures exists i :: 0 <= i < |after| && after[i].key == key
    {
      if key in rows {
        var i :| 0 <= i < |before| && before[i].key == key;
        assert after[i].key == key;
      } else {
        assert after[n].key == key;
      }
    }
  }

  // ---------------------------------------------------------------------------
  // The factory
  // ---------------------------------------------------------------------------

  /** The three atomics a reader or a fetch may touch. */
  datatype Published = Published(snapshot: Option<Snapshot>, generation: nat, failure: QueryStatus)

  /** What a reader answers from a loaded snapshot pointer and a loaded failure status. */
  function Answer(snapshot: Option<Snapshot>, failure: QueryStatus, maxAge: int, now: Time): QueryStatus {
    if snapshot.None? then (if failure == Ready then Missing else failure)
    else if !snapshot.value.Supported() then Unsupported
    else if snapshot.value.Age(now) > maxAge then (if failure == Ready then Stale else failure)
    else Ready
  }

  /** A 304 copies the snapshot under a new generation and fetch time. */
  function Revalidated(current: Snapshot, generation: nat, now: Time): Snapshot {
    current.(generation := generation, fetchedAt := now)
  }

  /** A revalidated copy still holds the payload of the original. */
  lemma RevalidatedHolds(snapshot: Snapshot, rows: Rows, generation: nat, now: Time)
    requires BuiltFrom(snapshot, rows)
    ensures BuiltFrom(Revalidated(snapshot, generation, now), rows)
  {
    hide Indexes, Occupied, Entries, Area, ListsRows;
  }

  /** The effect of one whole fetch, run without interruption. */
  ghost predicate FetchEffect(before: Published, outcome: FetchOutcome, now: Time, after: Published) {
    match outcome
    case Failed(_) => after == before.(failure := RefreshFailed)
    case NotModified(_) =>
      if before.snapshot.None? then after == before.(failure := RefreshFailed)
      else after == Published(
        Some(Revalidated(before.snapshot.value, before.generation + 1, now)), before.generation + 1, Ready)
    case Payload(rows, _) =>
      if Buildable(rows) then
        && after.snapshot.Some? && BuiltFrom(after.snapshot.value, rows)
        && after.snapshot.value.generation == before.generation + 1 && after.snapshot.value.fetchedAt == now
        && after.generation == before.generation + 1 && after.failure == Ready
      else after == Published(before.snapshot, before.generation + 1, Invalid)
  }

  /** The fetch published something. */
  ghost predicate Succeeds(before: Published, outcome: FetchOutcome) {
    match outcome
    case Failed(_) => false
    case NotModified(_) => before.snapshot.Some?
    case Payload(rows, _) => Buildable(rows)
  }

  /** The published snapshot, if any, was built from the payload. */
  ghost predicate Backed(snapshot: Option<Snapshot>, rows: Option<Rows>) {
    && (snapshot.Some? <==> rows.Some?)
    && (snapshot.Some? ==> Buildable(rows.value) && BuiltFrom(snapshot.value, rows.value))
  }

  ghost predicate Dated(snapshot: Option<Snapshot>, publishedAt: Time) {
    snapshot.Some? ==> snapshot.value.fetchedAt == publishedAt
  }

  /**
   At `now`, at most `maxAge` has passed since a fetch at `publishedAt`. Durations saturate
   at 2^63 - 1 nanoseconds, and Go's zero time counts as that long ago.
   */
  predicate Recent(publishedAt: Time, now: Time, maxAge: int) {
    || maxAge >= 9223372036854775807
    || (0 <= maxAge && now - publishedAt <= maxAge && publishedAt != -62135596800000000000)
  }

  lemma ReadyIffRecent(snapshot: Snapshot, failure: QueryStatus, maxAge: int, now: Time)
    requires snapshot.Supported()
    ensures Answer(Some(snapshot), failure, maxAge, now) == Ready <==> Recent(snapshot.fetchedAt, now, maxAge)
  {
  }

  class Factory {
    const service: Service
    const maxSnapshotAge: int
    const metrics: Counters
    var snapshot: Option<Snapshot>
    var generation: nat
    var failureStatus: QueryStatus
    /** The payload behind the published snapshot, and when a fetch last published or confirmed it. */
    ghost var rows: Option<Rows>
    ghost var publishedAt: Time

    /** Whatever is published was built from a payload that builds. */
    ghost predicate Valid()
      reads this, metrics, metrics.Repr
    {
      && metrics.Valid() && this !in metrics.Repr && service !in metrics.Repr
      && Backed(snapshot, rows) && Dated(snapshot, publishedAt)
    }

    constructor (enabled: bool, maxSnapshotAge: int)
      ensures Valid() && fresh(metrics.Repr)
      ensures this.maxSnapshotAge == maxSnapshotAge && snapshot == None && generation == 0 && failureStatus == Ready
      ensures fresh(service) && service.enabled == enabled && service.lastModified == ""
    {
      service := new Service(enabled);
      this.maxSnapshotAge := maxSnapshotAge;
      metrics := new Counters();
      snapshot, generation, failureStatus, rows, publishedAt := None, 0, Ready, None, 0;
    }

    ghost function State(): Published
      reads this
    {
      Published(snapshot, generation, failureStatus)
    }

    /** The published snapshot and whether proxy policy may act on it. */
    method Snapshot(now: Time) returns (current: Option<Snapshot>, status: QueryStatus)
      ensures current == snapshot && status == Answer(snapshot, failureStatus, maxSnapshotAge, now)
      ensures status == Ready <==>
              snapshot.Some? && snapshot.value.Supported() && snapshot.value.Age(now) <= maxSnapshotAge
      ensures Valid() ==> (status == Ready <==> snapshot.Some? && Recent(publishedAt, now, maxSnapshotAge))
    {
      if Valid() && snapshot.Some? {
        ReadyIffRecent(snapshot.value, failureStatus, maxSnapshotAge, now);
      }
      current := snapshot;
      if current.None? {
        if failureStatus != Ready {
          return current, failureStatus;
        }
        return current, Missing;
      }
      if !current.value.Supported() {
        return current, Unsupported;
      }
      if current.value.Age(now) > maxSnapshotAge {
        if failureStatus != Ready {
          return current, failureStatus;
        }
        return current, Stale;
      }
      return current, Ready;
    }

    /** Publishes what a fetch delivered. Only a 304 or a payload that builds changes the pointer. */
    method Publish(conversion: Float32 -> int32, result: FetchOutcome, now: Time) returns (ok: bool)
      requires Backed(snapshot, rows) && Dated(snapshot, publishedAt)
      modifies `snapshot, `generation, `failureStatus, `rows, `publishedAt
      ensures Backed(snapshot, rows) && Dated(snapshot, publishedAt)
      ensures publishedAt == if ok then now else old(publishedAt)
      ensures FetchEffect(old(State()), result, now, State())
      ensures ok == Succeeds(old(State()), result)
      ensures rows == if ok && result.Payload? then Some(result.rows) else old(rows)
    {
      hide BuiltFrom, Buildable;
      if result.Failed? {
        failureStatus := RefreshFailed;
        return false;
      }
      if result.NotModified? {
        if snapshot.None? {
          failureStatus := RefreshFailed;
          return false;
        }
        generation := generation + 1;
        RevalidatedHolds(snapshot.value, rows.value, generation, now);
        snapshot, publishedAt := Some(snapshot.value.(generation := generation, fetchedAt := now)), now;
        failureStatus := Ready;
        return true;
      }
      generation := generation + 1;
      var next := BuildSnapshot(conversion, result.rows, generation, now);
      if next.Failure? {
        failureStatus := Invalid;
        return false;
      }
      snapshot, rows, publishedAt := Some(next.value), Some(result.rows), now;
      failureStatus := Ready;
      return true;
    }

    /**
     Refreshes the snapshot once. Only a 304 or a payload that builds changes the pointer;
     with a disabled service nothing happens, which is no error.
     */
    method Fetch(conversion: Float32 -> int32, attempts: seq<Attempt>, now: Time)
      returns (ok: bool, ghost outcome: FetchOutcome)
      requires |attempts| == MAX_RETRIES + 1 && Valid()
      modifies `snapshot, `generation, `failureStatus, `rows, `publishedAt, service`lastModified
      modifies metrics`refreshAttempts, metrics`refreshSuccess, metrics`refreshFailure
      ensures Valid()
      ensures rows == if service.enabled && ok && outcome.Payload? then Some(outcome.rows) else old(rows)
      ensures publishedAt == if service.enabled && ok then now else old(publishedAt)
      ensures !service.enabled ==> ok && State() == old(State()) && service.lastModified == old(service.lastModified)
      ensures service.enabled && (forall i :: 0 <= i < |attempts| ==> Retried(attempts[i])) ==> outcome.Failed?
      ensures service.enabled ==>
                forall n :: 0 <= n < |attempts| && !Retried(attempts[n]) && (forall i :: 0 <= i < n ==> Retried(attempts[i]))
                  ==> Delivers(attempts[n], outcome)
      ensures service.enabled ==>
                && FetchEffect(old(State()), outcome, now, State())
                && ok == Succeeds(old(State()), outcome)
                && service.lastModified == Remember(old(service.lastModified), outcome)
      ensures metrics.refreshAttempts == old(metrics.refreshAttempts) + (if service.enabled then 1 else 0)
      ensures metrics.refreshSuccess == old(metrics.refreshSuccess) + (if service.enabled && ok then 1 else 0)
      ensures metrics.refreshFailure == old(metrics.refreshFailure) + (if ok then 0 else 1)
    {
      hide Backed, Dated, FetchEffect, Succeeds, Delivers, Retried;
      outcome := Payload(map[], "");
      if !service.enabled {
        return true, outcome;
      }
      metrics.refreshAttempts := metrics.refreshAttempts + 1;
      var result := service.FetchClaims(attempts);
      outcome := result;
      ok := Publish(conversion, result, now);
      if ok {
        metrics.refreshSuccess := metrics.refreshSuccess + 1;
      } else {
        metrics.refreshFailure := metrics.refreshFailure + 1;
      }
    }
  }
}
