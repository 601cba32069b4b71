/**
 Looking a point up in the claim index, and why that is the same as scanning every
 claim of the payload.
 */
module Lookup {
  import opened Wrappers
  import opened Numbers
  import opened Dimensions
  import opened Claims
  import opened Sequences
  import opened Snapshots

  predicate ClaimContains(cl: PlayerClaim, x: Float32, z: Float32) {
    AtMost(MinX(cl), x) && AtMost(x, MaxX(cl)) && AtMost(MinZ(cl), z) && AtMost(z, MaxZ(cl))
  }

  /** The rectangle between two finite corners, in either order and with its edges, has the point. */
  predicate Encloses(cl: PlayerClaim, x: Float32, z: Float32) {
    && cl.location.pos1.x.Finite? && cl.location.pos1.z.Finite? && cl.location.pos2.x.Finite? && cl.location.pos2.z.Finite?
    && x.Finite? && z.Finite?
    && Between(cl.location.pos1.x.value, cl.location.pos2.x.value, x.value)
    && Between(cl.location.pos1.z.value, cl.location.pos2.z.value, z.value)
  }

  /** Containment compares with the minimum and maximum of the corners: for finite ones it is lying between them. */
  lemma ContainsIffEncloses(cl: PlayerClaim, x: Float32, z: Float32)
    requires FiniteBounds(cl)
    ensures ClaimContains(cl, x, z) <==> Encloses(cl, x, z)
  {
  }

  /** One candidate alone encloses the point. */
  ghost predicate EnclosedOnlyBy(candidates: seq<PlayerClaim>, x: Float32, z: Float32, n: int) {
    0 <= n < |candidates| && Encloses(candidates[n], x, z)
    && forall i :: 0 <= i < |candidates| && Encloses(candidates[i], x, z) ==> i == n
  }

  lemma OnlyHit(candidates: seq<PlayerClaim>, x: Float32, z: Float32)
    requires AllFinite(candidates)
    ensures |Hits(candidates, x, z)| == 1 <==> exists n :: EnclosedOnlyBy(candidates, x, z, n)
    ensures forall n :: EnclosedOnlyBy(candidates, x, z, n) ==> Hits(candidates, x, z) == [candidates[n]]
    ensures |Hits(candidates, x, z)| == 0 <==> forall i :: 0 <= i < |candidates| ==> !Encloses(candidates[i], x, z)
  {
    hide Filter, ClaimContains, Encloses, FiniteBounds;
    forall i | 0 <= i < |candidates|
      ensures HoldsPoint(x, z)(candidates[i]) == Encloses(candidates[i], x, z)
    {
      ContainsIffEncloses(candidates[i], x, z);
    }
    OneKeptIff(candidates, HoldsPoint(x, z));
    NothingKeptIff(candidates, HoldsPoint(x, z));
    forall n ensures EnclosedOnlyBy(candidates, x, z, n) <==> KeptOnlyAt(candidates, HoldsPoint(x, z), n) {
    }
  }

  function HoldsPoint(x: Float32, z: Float32): PlayerClaim -> bool {
    (cl: PlayerClaim) => ClaimContains(cl, x, z)
  }

  function InDimension(dimension: string): PlayerClaim -> bool {
    (cl: PlayerClaim) => cl.location.dimension == dimension
  }

  /** The claims of a list that contain a point, in order. */
  function Hits(claims: seq<PlayerClaim>, x: Float32, z: Float32): seq<PlayerClaim> {
    Filter(claims, HoldsPoint(x, z))
  }

  /** The single claim at x, z; none and ambiguous when several claims contain the point. */
  method SingleClaimAt(candidates: seq<PlayerClaim>, x: Float32, z: Float32)
    returns (matched: Option<PlayerClaim>, ambiguous: bool)
    ensures ambiguous <==> |Hits(candidates, x, z)| >= 2
    ensures matched.Some? <==> |Hits(candidates, x, z)| == 1
    ensures matched.Some? ==> matched.value == Hits(candidates, x, z)[0]
    ensures AllFinite(candidates) ==>
              && (matched.Some? <==> exists n :: EnclosedOnlyBy(candidates, x, z, n))
              && (forall n :: EnclosedOnlyBy(candidates, x, z, n) ==> matched == Some(candidates[n]))
              && (matched.None? && !ambiguous <==> forall i :: 0 <= i < |candidates| ==> !Encloses(candidates[i], x, z))
  {
    hide EnclosedOnlyBy, Encloses, ClaimContains, FiniteBounds;
    if AllFinite(candidates) {
      OnlyHit(candidates, x, z);
    }
    matched := None;
    for n := 0 to |candidates|
      invariant Hits(candidates[..n], x, z) == if matched.Some? then [matched.value] else []
    {
      FilterNext(candidates, n, HoldsPoint(x, z));
      var candidate := candidates[n];
      if !ClaimContains(candidate, x, z) {
        continue;
      }
      if matched.Some? {
        FilterConcat(candidates[..n + 1], candidates[n + 1..], HoldsPoint(x, z));
        assert candidates == candidates[..n + 1] + candidates[n + 1..];
        return None, true;
      }
      matched := Some(candidate);
    }
    assert candidates[..|candidates|] == candidates;
    return matched, false;
  }

  // ---------------------------------------------------------------------------
  // The claims of a built snapshot
  // ---------------------------------------------------------------------------

  lemma ClaimsAreIndexable(snapshot: Snapshot, rows: Rows)
    requires Buildable(rows) && BuiltFrom(snapshot, rows)
    ensures forall i :: 0 <= i < |snapshot.claims| ==> Indexable(snapshot.claims[i])
  {
    var keys :| ListsRows(keys, rows, snapshot.claims);
    RowsAreIndexable(keys, rows, snapshot.claims);
  }

  /** Every claim is well formed and filed under a canonical dimension name. */
  lemma ClaimsAreWellFormed(snapshot: Snapshot, rows: Rows)
    requires Buildable(rows) && BuiltFrom(snapshot, rows)
    ensures forall i :: 0 <= i < |snapshot.claims| ==>
              ValidClaim(snapshot.claims[i])
              && CanonicalDimension(snapshot.claims[i].location.dimension) == (snapshot.claims[i].location.dimension, true)
  {
    hide CanonicalDimension, Stored, Acceptable, Indexable;
    var keys :| ListsRows(keys, rows, snapshot.claims);
    forall i | 0 <= i < |snapshot.claims|
      ensures ValidClaim(snapshot.claims[i])
              && CanonicalDimension(snapshot.claims[i].location.dimension) == (snapshot.claims[i].location.dimension, true)
    {
      assert keys[i] in keys;
      StoredIsWellFormed(keys[i], rows[keys[i]]);
    }
  }

  lemma ClaimsAreDistinct(snapshot: Snapshot, rows: Rows)
    requires Buildable(rows) && BuiltFrom(snapshot, rows)
    ensures Distinct(snapshot.claims)
    ensures forall i, j :: 0 <= i < j < |snapshot.claims| ==> snapshot.claims[i].id != snapshot.claims[j].id
  {
    hide Stored, Acceptable, Indexable, EffectiveId, Indexes, Occupied, Entries, Area, AllFinite;
    var keys :| ListsRows(keys, rows, snapshot.claims);
    forall i | 0 <= i < |keys| ensures keys[i] in rows && snapshot.claims[i].id == EffectiveId(keys[i], rows[keys[i]]) {
      assert keys[i] in keys;
      StoredId(keys[i], rows[keys[i]]);
    }
  }

  /** Every claim sits exactly once in exactly the buckets whose blocks it reaches into, under its own dimension. */
  lemma ClaimIsInItsBuckets(snapshot: Snapshot, rows: Rows, cl: PlayerClaim, d: string, k: CellKey)
    requires Buildable(rows) && BuiltFrom(snapshot, rows)
    ensures multiset(Bucket(snapshot.cells, d, k))[cl] ==
            if cl in snapshot.claims && cl.location.dimension == d && MeetsSquare(cl, k) then 1 else 0
  {
    hide Indexable, Covers, MeetsSquare;
    CoversIffMeets(cl, k);
    ClaimsAreDistinct(snapshot, rows);
    FilterMultiplicity(snapshot.claims, InBucket(d, k), cl);
    DistinctMultiplicity(snapshot.claims, cl);
  }

  // ---------------------------------------------------------------------------
  // The index refines the linear scan
  // ---------------------------------------------------------------------------

  /** A claim that contains a point covers the cell the point is looked up in. */
  lemma ContainingClaimCoversCell(cl: PlayerClaim, conversion: Float32 -> int32, x: Float32, z: Float32)
    requires Indexable(cl) && ClaimContains(cl, x, z)
    ensures x.Finite? && z.Finite?
    ensures FitsInt32(CellOf(x.value)) && FitsInt32(CellOf(z.value))
    ensures Covers(cl, CellFor(conversion, x, z))
  {
  }

  /**
   Scanning the one bucket a point falls into finds the same claims, in the same order,
   as scanning every claim of the dimension, for every point and every platform
   behaviour of the out-of-range conversion.
   */
  lemma IndexRefinesScan(snapshot: Snapshot, rows: Rows, conversion: Float32 -> int32, dimension: string, x: Float32, z: Float32)
    requires Buildable(rows) && BuiltFrom(snapshot, rows)
    ensures Hits(snapshot.Candidates(conversion, dimension, x, z), x, z) ==
            Hits(Filter(snapshot.claims, InDimension(dimension)), x, z)
  {
    hide Indexable, Covers, CellFor, ClaimContains, Buildable, Occupied;
    var key := CellFor(conversion, x, z);
    ClaimsAreIndexable(snapshot, rows);
    forall i | 0 <= i < |snapshot.claims| && ClaimContains(snapshot.claims[i], x, z)
      ensures Covers(snapshot.claims[i], key)
    {
      ContainingClaimCoversCell(snapshot.claims[i], conversion, x, z);
    }
    FilterSwap(snapshot.claims, dimension, key, x, z);
  }

  /** Bucket then point is dimension then point, when the bucket's cell is covered by all hits. */
  lemma {:induction false} FilterSwap(claims: seq<PlayerClaim>, dimension: string, key: CellKey, x: Float32, z: Float32)
    requires forall i :: 0 <= i < |claims| && ClaimContains(claims[i], x, z) ==> Covers(claims[i], key)
    ensures Hits(Filter(claims, InBucket(dimension, key)), x, z) == Hits(Filter(claims, InDimension(dimension)), x, z)
  {
    hide Covers, ClaimContains;
    if claims != [] {
      FilterSwap(claims[1..], dimension, key, x, z);
    }
  }

  /** A point outside the indexable range, or not finite, matches no claim of any bucket at all. */
  lemma OutOfRangeMatchesNothing(snapshot: Snapshot, rows: Rows, x: Float32, z: Float32, d: string, k: CellKey)
    requires Buildable(rows) && BuiltFrom(snapshot, rows)
    requires !(x.Finite? && z.Finite? && FitsInt32(CellOf(x.value)) && FitsInt32(CellOf(z.value)))
    ensures Hits(Bucket(snapshot.cells, d, k), x, z) == []
  {
    hide Indexable, Covers, ClaimContains, Buildable, Occupied, Entries, Area, CellOf;
    var found := Hits(Bucket(snapshot.cells, d, k), x, z);
    ClaimsAreIndexable(snapshot, rows);
    if found != [] {
      var cl := found[0];
      FilterMembers(Bucket(snapshot.cells, d, k), HoldsPoint(x, z), cl);
      FilterMembers(snapshot.claims, InBucket(d, k), cl);
      var i :| 0 <= i < |snapshot.claims| && snapshot.claims[i] == cl;
      ContainingClaimCoversCell(cl, f => 0, x, z);
      assert false;
    }
  }

  // ---------------------------------------------------------------------------
  // The order the rows were visited in does not show
  // ---------------------------------------------------------------------------

  lemma SameClaims(a: Snapshot, b: Snapshot, rows: Rows)
    requires Buildable(rows) && BuiltFrom(a, rows) && BuiltFrom(b, rows)
    ensures multiset(a.claims) == multiset(b.claims)
  {
    ClaimsAreDistinct(a, rows);
    ClaimsAreDistinct(b, rows);
    forall cl ensures cl in a.claims <==> cl in b.claims {
      MemberIsRow(a, rows, cl);
      MemberIsRow(b, rows, cl);
    }
    DistinctPermutation(a.claims, b.claims);
  }

  lemma MemberIsRow(snapshot: Snapshot, rows: Rows, cl: PlayerClaim)
    requires BuiltFrom(snapshot, rows)
    ensures cl in snapshot.claims <==> exists key :: key in rows && Stored(key, rows[key]) == cl
  {
    hide Stored, Indexable;
    var keys :| ListsRows(keys, rows, snapshot.claims);
    if cl in snapshot.claims {
      var i :| 0 <= i < |snapshot.claims| && snapshot.claims[i] == cl;
      assert keys[i] in keys;
    }
    if key :| key in rows && Stored(key, rows[key]) == cl {
      var i :| 0 <= i < |keys| && keys[i] == key;
      assert snapshot.claims[i] == cl;
    }
  }

  /** Two builds of one payload have permuted buckets and give every lookup the same answer. */
  lemma BuildIsOrderIndependent(a: Snapshot, b: Snapshot, rows: Rows, d: string, k: CellKey, x: Float32, z: Float32)
    requires Buildable(rows) && BuiltFrom(a, rows) && BuiltFrom(b, rows)
    ensures multiset(Bucket(a.cells, d, k)) == multiset(Bucket(b.cells, d, k))
    ensures a.claimCount == b.claimCount && |a.claims| == |b.claims|
    ensures |Hits(Bucket(a.cells, d, k), x, z)| == |Hits(Bucket(b.cells, d, k), x, z)|
    ensures |Hits(Bucket(a.cells, d, k), x, z)| == 1 ==>
              Hits(Bucket(a.cells, d, k), x, z) == Hits(Bucket(b.cells, d, k), x, z)
  {
    hide Indexable, Buildable;
    SameClaims(a, b, rows);
    assert |a.claims| == |multiset(a.claims)| && |b.claims| == |multiset(b.claims)|;
    FilterPermutation(a.claims, b.claims, InBucket(d, k));
    FilterPermutation(Bucket(a.cells, d, k), Bucket(b.cells, d, k), HoldsPoint(x, z));
    SamePermutation(Hits(Bucket(a.cells, d, k), x, z), Hits(Bucket(b.cells, d, k), x, z));
  }

  lemma SamePermutation(p: seq<PlayerClaim>, q: seq<PlayerClaim>)
    requires multiset(p) == multiset(q)
    ensures |p| == |q| && (|p| == 1 ==> p == q)
  {
    assert |p| == |multiset(p)| && |q| == |multiset(q)|;
    if |p| == 1 {
      assert p[0] in multiset(q);
    }
  }

  // ---------------------------------------------------------------------------
  // Down to the rows of the payload
  // ---------------------------------------------------------------------------

  /** Row `key` is a claim of `dimension` whose rectangle has the point. */
  predicate RowHit(rows: Rows, key: string, dimension: string, x: Float32, z: Float32) {
    && key in rows
    && CanonicalDimension(rows[key].location.dimension).0 == dimension
    && Encloses(rows[key], x, z)
  }

  /** The row is the only one of its dimension that contains the point. */
  ghost predicate OnlyRowAt(rows: Rows, key: string, dimension: string, x: Float32, z: Float32) {
    RowHit(rows, key, dimension, x, z) && forall other :: RowHit(rows, other, dimension, x, z) ==> other == key
  }

  lemma StoredContains(key: string, source: PlayerClaim, dimension: string, x: Float32, z: Float32)
    ensures ClaimContains(Stored(key, source), x, z) <==> ClaimContains(source, x, z)
    ensures Stored(key, source).location.dimension == CanonicalDimension(source.location.dimension).0
  {
    hide CanonicalDimension;
  }

  /** A lookup finds one claim exactly when one row of the payload contains the point, and finds that row's copy. */
  lemma LookupFindsTheRow(snapshot: Snapshot, rows: Rows, conversion: Float32 -> int32, dimension: string, x: Float32, z: Float32)
    requires Buildable(rows) && BuiltFrom(snapshot, rows)
    ensures forall key :: key in rows && OnlyRowAt(rows, key, dimension, x, z) ==>
              Hits(snapshot.Candidates(conversion, dimension, x, z), x, z) == [Stored(key, rows[key])]
    ensures |Hits(snapshot.Candidates(conversion, dimension, x, z), x, z)| == 1 ==>
              exists key :: OnlyRowAt(rows, key, dimension, x, z)
  {
    assert AllAcceptable(rows);
    hide Indexable, Stored, Acceptable, CellFor, ClaimContains, CanonicalDimension, RowHit, OnlyRowAt, Buildable, Indexes, Occupied,
      AllAcceptable, ListsRows, Encloses;
    var keys :| ListsRows(keys, rows, snapshot.claims);
    var hits := Hits(snapshot.Candidates(conversion, dimension, x, z), x, z);
    IndexRefinesScan(snapshot, rows, conversion, dimension, x, z);
    forall key | key in rows && OnlyRowAt(rows, key, dimension, x, z) ensures hits == [Stored(key, rows[key])] {
      OnlyRowIsOnlyHit(keys, snapshot.claims, rows, key, dimension, x, z);
    }
    if |hits| == 1 {
      OnlyHitIsOnlyRow(keys, snapshot.claims, rows, dimension, x, z);
    }
  }

  /** Position by position, a listed row is hit when its copy is. */
  lemma RowHitsByPosition(keys: seq<string>, claims: seq<PlayerClaim>, rows: Rows, dimension: string, x: Float32, z: Float32)
    requires AllAcceptable(rows)
    requires ListsRows(keys, rows, claims)
    ensures forall i :: 0 <= i < |keys| ==>
              (RowHit(rows, keys[i], dimension, x, z) <==> InDimension(dimension)(claims[i]) && HoldsPoint(x, z)(claims[i]))
  {
    hide CanonicalDimension, ClaimContains, Stored, RowHit;
    forall i | 0 <= i < |keys|
      ensures RowHit(rows, keys[i], dimension, x, z) <==> InDimension(dimension)(claims[i]) && HoldsPoint(x, z)(claims[i])
    {
      assert keys[i] in keys;
      RowHitIsStoredHit(rows, keys[i], dimension, x, z);
    }
  }

  lemma OnlyRowIsOnlyHit(keys: seq<string>, claims: seq<PlayerClaim>, rows: Rows, key: string, dimension: string, x: Float32, z: Float32)
    requires AllAcceptable(rows)
    requires ListsRows(keys, rows, claims) && key in rows && OnlyRowAt(rows, key, dimension, x, z)
    ensures Filter(Filter(claims, InDimension(dimension)), HoldsPoint(x, z)) == [Stored(key, rows[key])]
  {
    hide CanonicalDimension, ClaimContains, Stored, RowHit;
    RowHitsByPosition(keys, claims, rows, dimension, x, z);
    var n :| 0 <= n < |keys| && keys[n] == key;
    forall i | 0 <= i < |claims|
      ensures InDimension(dimension)(claims[i]) && HoldsPoint(x, z)(claims[i]) <==> i == n
    {
      assert RowHit(rows, keys[i], dimension, x, z) <==> keys[i] == key;
    }
    HitsOnlyAt(claims, InDimension(dimension), HoldsPoint(x, z), n);
  }

  lemma OnlyHitIsOnlyRow(keys: seq<string>, claims: seq<PlayerClaim>, rows: Rows, dimension: string, x: Float32, z: Float32)
    requires AllAcceptable(rows)
    requires ListsRows(keys, rows, claims)
    requires |Filter(Filter(claims, InDimension(dimension)), HoldsPoint(x, z))| == 1
    ensures exists key :: OnlyRowAt(rows, key, dimension, x, z)
  {
    hide CanonicalDimension, ClaimContains, Stored, RowHit;
    RowHitsByPosition(keys, claims, rows, dimension, x, z);
    var n := HitsSingle(claims, InDimension(dimension), HoldsPoint(x, z));
    forall other | RowHit(rows, other, dimension, x, z) ensures other == keys[n] {
      RowHitIsRow(rows, other, dimension, x, z);
      var j :| 0 <= j < |keys| && keys[j] == other;
    }
    assert OnlyRowAt(rows, keys[n], dimension, x, z);
  }

  lemma RowHitIsRow(rows: Rows, key: string, dimension: string, x: Float32, z: Float32)
    requires RowHit(rows, key, dimension, x, z)
    ensures key in rows
  {
  }

  lemma RowHitIsStoredHit(rows: Rows, key: string, dimension: string, x: Float32, z: Float32)
    requires key in rows && Acceptable(key, rows[key])
    ensures RowHit(rows, key, dimension, x, z) <==>
            InDimension(dimension)(Stored(key, rows[key])) && HoldsPoint(x, z)(Stored(key, rows[key]))
  {
    hide CanonicalDimension, ClaimContains, Stored, Encloses;
    StoredContains(key, rows[key], dimension, x, z);
    ContainsIffEncloses(rows[key], x, z);
  }

  lemma {:induction false} HitsByIndex(claims: seq<PlayerClaim>, p: PlayerClaim -> bool, q: PlayerClaim -> bool)
    ensures Filter(Filter(claims, p), q) == [] <==> forall i :: 0 <= i < |claims| ==> !(p(claims[i]) && q(claims[i]))
  {
    if claims != [] {
      HitsByIndex(claims[1..], p, q);
      assert forall i :: 0 < i < |claims| ==> claims[i] == claims[1..][i - 1];
    }
  }

  lemma {:induction false} HitsOnlyAt(claims: seq<PlayerClaim>, p: PlayerClaim -> bool, q: PlayerClaim -> bool, n: nat)
    requires n < |claims|
    requires forall i :: 0 <= i < |claims| ==> (p(claims[i]) && q(claims[i]) <==> i == n)
    ensures Filter(Filter(claims, p), q) == [claims[n]]
  {
    assert forall i :: 0 < i < |claims| ==> claims[i] == claims[1..][i - 1];
    if n == 0 {
      HitsByIndex(claims[1..], p, q);
    } else {
      HitsOnlyAt(claims[1..], p, q, n - 1);
    }
  }

  lemma {:induction false} HitsSingle(claims: seq<PlayerClaim>, p: PlayerClaim -> bool, q: PlayerClaim -> bool) returns (n: nat)
    requires |Filter(Filter(claims, p), q)| == 1
    ensures n < |claims| && forall i :: 0 <= i < |claims| ==> (p(claims[i]) && q(claims[i]) <==> i == n)
  {
    assert forall i :: 0 < i < |claims| ==> claims[i] == claims[1..][i - 1];
    if p(claims[0]) && q(claims[0]) {
      HitsByIndex(claims[1..], p, q);
      n := 0;
    } else {
      var m := HitsSingle(claims[1..], p, q);
      n := m + 1;
    }
  }
}
