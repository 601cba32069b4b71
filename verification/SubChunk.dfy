/**
 Deny-block rendering: the loop over the 256 columns of a sub-chunk, and when what it
 draws agrees with what is enforced. It reads the one bucket of the chunk's corner, which
 is right exactly for the chunks whose columns all convert to float32 within that cell.
 */
module SubChunks {
  import opened Wrappers
  import opened Numbers
  import opened Dimensions
  import opened Claims
  import opened Sequences
  import opened Snapshots
  import opened Lookup
  import opened Policy
  import opened Metrics
  import opened Areas
  import opened Decisions

  /** `blockPosToVec3` of the column's block at height 0. */
  function ColumnPosition(chunkX: int32, chunkZ: int32, i: int, j: int): Vector3 {
    Vector3(ToFloat32(Column(chunkX, i)), ToFloat32(0), ToFloat32(Column(chunkZ, j)))
  }

  /** One claim alone covers the column, and the viewer may neither build nor mine there. */
  predicate ColumnDenied(claims: seq<PlayerClaim>, actor: ClaimActor, position: Vector3) {
    var hits := Hits(claims, position.x, position.z);
    |hits| == 1 && !ClaimActionPermitted(hits[0], actor, Render, Position(position))
  }

  /** Decides one column and records it. */
  method RenderColumn(claims: seq<PlayerClaim>, actor: ClaimActor, position: Vector3, metrics: Counters) returns (denied: bool)
    requires metrics.Valid()
    modifies metrics.seen, metrics.forwarded, metrics.denied, metrics.reasons
    ensures denied == ColumnDenied(claims, actor, position)
    ensures metrics.seen[..] == Bumped(old(metrics.seen[..]), Render.Code())
    ensures old(metrics.Balanced()) ==> metrics.Balanced()
  {
    hide Policy.ClaimActionPermitted, Hits;
    var matched, ambiguous := SingleClaimAt(claims, position.x, position.z);
    if ambiguous {
      metrics.Reason(Overlap);
    }
    denied := !ambiguous && matched.Some? && !Policy.ClaimActionPermitted(matched.value, actor, Render, Position(position));
    metrics.Action(Render.Code(), !denied);
  }

  /**
   The 16 x 16 loop: a column gets the deny block exactly when it is denied, every other
   column keeps its block, and every column is counted once.
   */
  method ApplyClaimDenyBlocks(
    claims: seq<PlayerClaim>, chunkX: int32, chunkZ: int32, denyID: nat, actor: ClaimActor,
    metrics: Counters, blocks: array2<nat>)
    returns (modified: bool)
    requires metrics.Valid() && blocks.Length0 == 16 && blocks.Length1 == 16
    requires blocks as object !in metrics.Repr
    modifies blocks, metrics.seen, metrics.forwarded, metrics.denied, metrics.reasons
    ensures forall i, j :: 0 <= i < 16 && 0 <= j < 16 ==>
              blocks[i, j] == if ColumnDenied(claims, actor, ColumnPosition(chunkX, chunkZ, i, j)) then denyID else old(blocks[i, j])
    ensures modified <==> exists i, j :: 0 <= i < 16 && 0 <= j < 16 && ColumnDenied(claims, actor, ColumnPosition(chunkX, chunkZ, i, j))
    ensures old(metrics.Balanced()) ==> metrics.Balanced()
    ensures metrics.seen[Render.Code()] == old(metrics.seen[Render.Code()]) + 256
  {
    hide ColumnDenied, ColumnPosition;
    modified := false;
    for z := 0 to 16
      invariant metrics.seen[Render.Code()] == old(metrics.seen[Render.Code()]) + 16 * z
      invariant old(metrics.Balanced()) ==> metrics.Balanced()
      invariant forall i, j :: 0 <= i < 16 && 0 <= j < 16 ==>
                  blocks[i, j] == if j < z && ColumnDenied(claims, actor, ColumnPosition(chunkX, chunkZ, i, j)) then denyID else old(blocks[i, j])
      invariant modified <==> exists i, j :: 0 <= i < 16 && 0 <= j < z && ColumnDenied(claims, actor, ColumnPosition(chunkX, chunkZ, i, j))
    {
      for x := 0 to 16
        invariant metrics.seen[Render.Code()] == old(metrics.seen[Render.Code()]) + 16 * z + x
        invariant old(metrics.Balanced()) ==> metrics.Balanced()
        invariant forall i, j :: 0 <= i < 16 && 0 <= j < 16 ==>
                    blocks[i, j] ==
                    if (j < z || (j == z && i < x)) && ColumnDenied(claims, actor, ColumnPosition(chunkX, chunkZ, i, j)) then denyID
                    else old(blocks[i, j])
        invariant modified <==>
                  exists i, j :: 0 <= i < 16 && 0 <= j < 16 && (j < z || (j == z && i < x))
                                 && ColumnDenied(claims, actor, ColumnPosition(chunkX, chunkZ, i, j))
      {
        var denied := RenderColumn(claims, actor, ColumnPosition(chunkX, chunkZ, x, z), metrics);
        if denied {
          blocks[x, z] := denyID;
          modified := true;
        }
      }
    }
  }

  // ---------------------------------------------------------------------------
  // When the corner bucket is the right one for all 256 columns
  // ---------------------------------------------------------------------------

  function ColumnCell(conversion: Float32 -> int32, chunkX: int32, chunkZ: int32, i: int, j: int): CellKey {
    CellFor(conversion, ToFloat32(Column(chunkX, i)), ToFloat32(Column(chunkZ, j)))
  }

  /** All columns of the chunk fall into the cell of its corner. */
  ghost predicate CornerCellExact(conversion: Float32 -> int32, chunkX: int32, chunkZ: int32) {
    forall i, j :: 0 <= i < 16 && 0 <= j < 16 ==>
      ColumnCell(conversion, chunkX, chunkZ, i, j) == ColumnCell(conversion, chunkX, chunkZ, 0, 0)
  }

  /** The blocks of the chunk lie within 2^24 along one axis. */
  predicate AxisExact(c: int32) {
    -0x100_0000 <= Corner(c) <= 0x100_0000 - 16
  }

  /** The cell along one axis, as an integer. */
  function AxisCell(n: int): int {
    CellOf(RoundToFloat(n) as real)
  }

  lemma CellIsQuotient(n: int)
    ensures CellOf(n as real) == n / 16
  {
    assert (n as real / 16.0) == (n / 16) as real + (n % 16) as real / 16.0;
  }

  lemma AxisCellFits(n: int)
    requires FitsInt32(n)
    ensures AxisCell(n) == RoundToFloat(n) / 16 && FitsInt32(AxisCell(n))
  {
    RoundIsNear(n);
    CellIsQuotient(RoundToFloat(n));
    hide RoundToFloat;
  }

  lemma ColumnCellIsAxisCells(conversion: Float32 -> int32, chunkX: int32, chunkZ: int32, i: int, j: int)
    requires 0 <= i < 16 && 0 <= j < 16
    ensures FitsInt32(AxisCell(Column(chunkX, i))) && FitsInt32(AxisCell(Column(chunkZ, j)))
    ensures ColumnCell(conversion, chunkX, chunkZ, i, j) ==
            CellKey(AxisCell(Column(chunkX, i)) as int32, AxisCell(Column(chunkZ, j)) as int32)
  {
    hide RoundToFloat;
    CornerIsAligned(chunkX);
    CornerIsAligned(chunkZ);
    AxisCellFits(Column(chunkX, i));
    AxisCellFits(Column(chunkZ, j));
  }

  lemma AxisWithin(c: int32, i: int)
    requires AxisExact(c) && 0 <= i < 16
    ensures AxisCell(Column(c, i)) == AxisCell(Column(c, 0))
  {
    hide RoundToFloat, CellOf;
    CornerIsAligned(c);
    RoundExact(Column(c, i));
    RoundExact(Column(c, 0));
    CellIsQuotient(Column(c, i));
    CellIsQuotient(Column(c, 0));
  }

  /** Outside 2^24, up to 2^28, the last column of a chunk always leaves the corner's cell. */
  lemma AxisBeyond(c: int32)
    requires !AxisExact(c) && -0x1000_0000 <= Corner(c) < 0x1000_0000
    ensures AxisCell(Column(c, 15)) != AxisCell(Column(c, 0))
  {
    hide RoundMagnitude, CellOf;
    CornerIsAligned(c);
    if Corner(c) > 0 {
      var j := Corner(c) / 16;
      LastColumnRoundsAway(j);
      CellIsQuotient(16 * j);
      CellIsQuotient(16 * j + 16);
    } else {
      var j := -Corner(c) / 16 - 1;
      NearestColumnRoundsAway(j);
      CellIsQuotient(-(16 * j + 16));
      CellIsQuotient(-(16 * j));
    }
  }

  /** The end of the chunk's span that is nearer to the origin, as a magnitude. */
  function NearEnd(corner: int): nat {
    if corner >= 0 then corner else if corner <= -16 then -corner - 16 else 0
  }

  /**
   All columns of the chunk round into one 16-block span along one axis: below 2^24 always,
   up to 2^28 never, and beyond exactly when the corner is not where rounding turns over.
   */
  predicate AxisShared(c: int32) {
    var corner := Corner(c);
    var s := Spacing(NearEnd(corner));
    s == 1 || (s >= 32 && (if corner >= 0 then corner % (2 * s) != s / 2 else -corner % (2 * s) != s + s / 2))
  }

  lemma AxisCellIsRounded(c: int32, i: int)
    requires 0 <= i < 16
    ensures AxisCell(Column(c, i)) == RoundToFloat(Column(c, i)) / 16
  {
    hide RoundToFloat;
    CornerIsAligned(c);
    AxisCellFits(Column(c, i));
  }

  /** The neighbour a column rounds to: the one below, `q * s`, or the one above. */
  function Neighbour(s: nat, q: nat, rest: int): int {
    if 2 * rest < s || (2 * rest == s && q % 2 == 0) then q * s else q * s + s
  }

  /** The cell of column `i` above, and below, the neighbour `q * s`. */
  function CellAbove(s: nat, q: nat, r: nat, i: int): int {
    Neighbour(s, q, r + i) / 16
  }

  function CellBelow(s: nat, q: nat, r: nat, i: int): int {
    -Neighbour(s, q, r + 16 - i) / 16
  }

  /** Beyond 2^28 along the positive axis. */
  lemma CoarsePositive(c: int32, s: nat, q: nat, r: nat)
    requires Corner(c) >= 0 && CoarseCorner(Corner(c), s, q, r)
    ensures AxisShared(c) <==> !(2 * r == s && q % 2 == 0)
    ensures forall i :: 0 <= i < 16 ==> AxisCell(Column(c, i)) == CellAbove(s, q, r, i)
  {
    hide Corner, RoundMagnitude, AxisCell, Spacing;
    SpacingCoarse(Corner(c), s);
    TurnsOver(Corner(c), s, q, r);
    forall i | 0 <= i < 16 ensures AxisCell(Column(c, i)) == CellAbove(s, q, r, i) {
      AxisCellIsRounded(c, i);
      CoarseRounds(Corner(c), s, q, r, i);
    }
  }

  /** Beyond 2^28 along the negative axis. */
  lemma CoarseNegative(c: int32, s: nat, q: nat, r: nat)
    requires Corner(c) <= -16 && CoarseCorner(-Corner(c) - 16, s, q, r)
    ensures AxisShared(c) <==> !(2 * (r + 16) == s && q % 2 == 1)
    ensures forall i :: 0 <= i < 16 ==> AxisCell(Column(c, i)) == CellBelow(s, q, r, i)
  {
    hide Corner, RoundMagnitude, AxisCell, Spacing;
    var b := -Corner(c) - 16;
    SpacingCoarse(b, s);
    CoarseTurn(c, s, q, r);
    forall i | 0 <= i < 16 ensures AxisCell(Column(c, i)) == CellBelow(s, q, r, i) {
      AxisCellIsRounded(c, i);
      CoarseRounds(b, s, q, r, 16 - i);
    }
  }

  lemma CoarseTurn(c: int32, s: nat, q: nat, r: nat)
    requires Corner(c) <= -16 && CoarseCorner(-Corner(c) - 16, s, q, r)
    ensures -Corner(c) % (2 * s) == s + s / 2 <==> 2 * (r + 16) == s && q % 2 == 1
  {
    hide Corner;
    RestIsAligned(-Corner(c) - 16, s, q, r);
    if r + 16 < s {
      TurnsOver(-Corner(c), s, q, r + 16);
    } else {
      TurnsOver(-Corner(c), s, q + 1, 0);
    }
  }

  /** Sixteen steps above an aligned rest round alike unless the first of them is a tie that goes down. */
  lemma AlikeUpwards(s: nat, q: nat, r: nat)
    requires Coarse(s) && r % 16 == 0 && r + 16 <= s
    ensures !(2 * r == s && q % 2 == 0) <==> forall i :: 0 <= i < 16 ==> CellAbove(s, q, r, i) == CellAbove(s, q, r, 0)
  {
    SpansDiffer(s, q);
    assert 2 * r == s && q % 2 == 0 ==> CellAbove(s, q, r, 15) != CellAbove(s, q, r, 0);
  }

  /** Sixteen steps below an aligned end round alike unless the last of them is a tie that goes up. */
  lemma AlikeDownwards(s: nat, q: nat, r: nat)
    requires Coarse(s) && r % 16 == 0 && r + 16 <= s
    ensures !(2 * (r + 16) == s && q % 2 == 1) <==>
              forall i :: 0 <= i < 16 ==> CellBelow(s, q, r, i) == CellBelow(s, q, r, 0)
  {
    SpansDiffer(s, q);
    assert 2 * (r + 16) == s && q % 2 == 1 ==> CellBelow(s, q, r, 15) != CellBelow(s, q, r, 0);
  }

  lemma SpansDiffer(s: nat, q: nat)
    requires Coarse(s)
    ensures q * s / 16 != (q * s + s) / 16 && -(q * s) / 16 != -(q * s + s) / 16
  {
  }

  lemma TurnsOver(n: nat, s: nat, q: nat, r: nat)
    requires Coarse(s) && n == q * s + r && r < s
    ensures n % (2 * s) == (if q % 2 == 0 then r else s + r)
  {
    var rest := if q % 2 == 0 then r else s + r;
    if s == 32 {
      DivisionIsUnique(n, 64, q / 2, rest);
    } else if s == 64 {
      DivisionIsUnique(n, 128, q / 2, rest);
    } else {
      DivisionIsUnique(n, 256, q / 2, rest);
    }
  }

  /** Within 2^28 the columns share a cell exactly within 2^24. */
  lemma SharedNearby(c: int32)
    requires -0x1000_0000 <= Corner(c) < 0x1000_0000
    ensures AxisShared(c) <==> AxisExact(c)
  {
    CornerIsAligned(c);
    SpacingSmall(NearEnd(Corner(c)));
    hide Spacing;
  }

  ghost predicate OneCell(c: int32) {
    forall i :: 0 <= i < 16 ==> AxisCell(Column(c, i)) == AxisCell(Column(c, 0))
  }

  lemma SharedNearbyIff(c: int32)
    requires -0x1000_0000 <= Corner(c) < 0x1000_0000
    ensures AxisShared(c) <==> OneCell(c)
  {
    hide AxisCell, AxisShared, Corner;
    SharedNearby(c);
    if AxisExact(c) {
      forall i | 0 <= i < 16 ensures AxisCell(Column(c, i)) == AxisCell(Column(c, 0)) {
        AxisWithin(c, i);
      }
    } else {
      AxisBeyond(c);
    }
  }

  lemma SharedFarOutIff(c: int32, s: nat)
    requires Coarse(s) && 0x80_0000 * s <= NearEnd(Corner(c)) < 0x100_0000 * s && NearEnd(Corner(c)) % 16 == 0
    ensures AxisShared(c) <==> OneCell(c)
  {
    hide AxisCell, AxisShared, Corner, Column, CellAbove, CellBelow;
    var b := NearEnd(Corner(c));
    var q, r := b / s, b % s;
    QuotientAndRest(b, s);
    RestIsAligned(b, s, q, r);
    if Corner(c) >= 0 {
      CoarsePositive(c, s, q, r);
      AlikeUpwards(s, q, r);
    } else {
      CoarseNegative(c, s, q, r);
      AlikeDownwards(s, q, r);
    }
  }

  /** Along one axis, all columns fall into the corner's cell exactly when the corner says so. */
  lemma AxisSharedIff(c: int32)
    ensures AxisShared(c) <==> OneCell(c)
  {
    hide OneCell, AxisShared, Corner;
    CornerIsAligned(c);
    CornerFits(c);
    if -0x1000_0000 <= Corner(c) < 0x1000_0000 {
      SharedNearbyIff(c);
    } else {
      var b := NearEnd(Corner(c));
      SharedFarOutIff(c, if b < 0x2000_0000 then 32 else if b < 0x4000_0000 then 64 else 128);
    }
  }

  lemma CornerFits(c: int32)
    ensures -0x8000_0000 <= Corner(c) <= 0x7FFF_FFF0
  {
    CornerIsAligned(c);
  }

  /** The corner bucket serves a whole chunk exactly when its columns share one cell along both axes. */
  lemma CornerCellExactIff(conversion: Float32 -> int32, chunkX: int32, chunkZ: int32)
    ensures CornerCellExact(conversion, chunkX, chunkZ) <==> AxisShared(chunkX) && AxisShared(chunkZ)
  {
    hide ColumnCell, AxisCell, Corner, AxisShared;
    forall i, j | 0 <= i < 16 && 0 <= j < 16
      ensures ColumnCell(conversion, chunkX, chunkZ, i, j) == ColumnCell(conversion, chunkX, chunkZ, 0, 0) <==>
              AxisCell(Column(chunkX, i)) == AxisCell(Column(chunkX, 0)) && AxisCell(Column(chunkZ, j)) == AxisCell(Column(chunkZ, 0))
    {
      ColumnCellIsAxisCells(conversion, chunkX, chunkZ, i, j);
      ColumnCellIsAxisCells(conversion, chunkX, chunkZ, 0, 0);
    }
    AxisSharedIff(chunkX);
    AxisSharedIff(chunkZ);
    if CornerCellExact(conversion, chunkX, chunkZ) {
      forall i | 0 <= i < 16
        ensures AxisCell(Column(chunkX, i)) == AxisCell(Column(chunkX, 0)) && AxisCell(Column(chunkZ, i)) == AxisCell(Column(chunkZ, 0))
      {
        assert ColumnCell(conversion, chunkX, chunkZ, i, i) == ColumnCell(conversion, chunkX, chunkZ, 0, 0);
      }
    }
  }

  // ---------------------------------------------------------------------------
  // Rendering against enforcement
  // ---------------------------------------------------------------------------

  /** Claims as a snapshot may hold them: indexable, valid, with finite features and distinct ids. */
  ghost predicate Filed(claims: seq<PlayerClaim>) {
    && (forall i :: 0 <= i < |claims| ==> Indexable(claims[i]) && ValidClaim(claims[i]) && FiniteFeatures(claims[i]))
    && (forall i, j :: 0 <= i < j < |claims| ==> claims[i].id != claims[j].id)
  }

  /** Every break and every place in the column is refused, at every height and for every block type. */
  ghost predicate ColumnEnforced(claims: seq<PlayerClaim>, dimension: string, actor: ClaimActor, x: Float32, z: Float32) {
    var hits := ScanHits(claims, dimension, x, z);
    |hits| == 1 && ColumnClosed(hits[0], actor, x, z)
  }

  /** The sub-chunk loop, reading the corner bucket, draws a deny block in the column. */
  ghost predicate ColumnDrawn(
    conversion: Float32 -> int32, claims: seq<PlayerClaim>, dimension: string, actor: ClaimActor,
    chunkX: int32, chunkZ: int32, i: int, j: int)
  {
    ColumnDenied(
      Filter(claims, InBucket(dimension, ColumnCell(conversion, chunkX, chunkZ, 0, 0))),
      actor, ColumnPosition(chunkX, chunkZ, i, j))
  }

  ghost predicate RenderingSound(conversion: Float32 -> int32, chunkX: int32, chunkZ: int32) {
    forall claims, dimension, actor, i, j | Filed(claims) && 0 <= i < 16 && 0 <= j < 16 ::
      ColumnDrawn(conversion, claims, dimension, actor, chunkX, chunkZ, i, j) ==>
        ColumnEnforced(claims, dimension, actor, ColumnPosition(chunkX, chunkZ, i, j).x, ColumnPosition(chunkX, chunkZ, i, j).z)
  }

  /** With the right bucket, a column is drawn exactly when it is enforced. */
  lemma DrawnIffEnforced(
    conversion: Float32 -> int32, claims: seq<PlayerClaim>, dimension: string, actor: ClaimActor,
    chunkX: int32, chunkZ: int32, i: int, j: int)
    requires Filed(claims) && 0 <= i < 16 && 0 <= j < 16
    requires ColumnCell(conversion, chunkX, chunkZ, i, j) == ColumnCell(conversion, chunkX, chunkZ, 0, 0)
    ensures ColumnDrawn(conversion, claims, dimension, actor, chunkX, chunkZ, i, j) <==>
            ColumnEnforced(claims, dimension, actor, ColumnPosition(chunkX, chunkZ, i, j).x, ColumnPosition(chunkX, chunkZ, i, j).z)
  {
    hide Indexable, Covers, CellFor, ClaimContains, ClaimActionPermitted, ColumnClosed, FiniteFeatures, ToFloat32;
    var p := ColumnPosition(chunkX, chunkZ, i, j);
    var key := CellFor(conversion, p.x, p.z);
    forall n | 0 <= n < |claims| && ClaimContains(claims[n], p.x, p.z) ensures Covers(claims[n], key) {
      ContainingClaimCoversCell(claims[n], conversion, p.x, p.z);
    }
    FilterSwap(claims, dimension, key, p.x, p.z);
    var hits := ScanHits(claims, dimension, p.x, p.z);
    if |hits| == 1 {
      FilterMembers(Filter(claims, InDimension(dimension)), HoldsPoint(p.x, p.z), hits[0]);
      FilterMembers(claims, InDimension(dimension), hits[0]);
      RenderedDenyIsExact(hits[0], actor, p);
    }
  }

  /** A claim from one point to another, with no features. */
  function Plot(id: string, a: Vector2, b: Vector2): PlayerClaim {
    PlayerClaim(id, "owner", Location(OVERWORLD, a, b), [], [])
  }

  /** Two float32 block coordinates of one chunk span few cells. */
  lemma PlotIsIndexable(chunkX: int32, chunkZ: int32, i: int, j: int, id: string)
    requires 0 <= i < 16 && 0 <= j < 16 && id != ""
    ensures var corner, p := ColumnPosition(chunkX, chunkZ, 0, 0), ColumnPosition(chunkX, chunkZ, i, j);
            Indexable(Plot(id, Vector2(corner.x, corner.z), Vector2(p.x, p.z)))
  {
    hide RoundToFloat, CellOf, OVERWORLD;
    CornerIsAligned(chunkX);
    CornerIsAligned(chunkZ);
    var a, b := Column(chunkX, 0), Column(chunkX, i);
    var c, d := Column(chunkZ, 0), Column(chunkZ, j);
    RoundIsNear(a); RoundIsNear(b); RoundIsNear(c); RoundIsNear(d);
    CellIsQuotient(RoundToFloat(a));
    CellIsQuotient(RoundToFloat(b));
    CellIsQuotient(RoundToFloat(c));
    CellIsQuotient(RoundToFloat(d));
    var corner, p := ColumnPosition(chunkX, chunkZ, 0, 0), ColumnPosition(chunkX, chunkZ, i, j);
    var r := CellsOf(Plot(id, Vector2(corner.x, corner.z), Vector2(p.x, p.z)));
    assert 1 <= r.Width() <= 64 && 1 <= r.Depth() <= 64;
    ProductBound(r.Width(), r.Depth(), 64);
  }

  /** Both claims, in either order. */
  predicate ListsBoth(claims: seq<PlayerClaim>, a: PlayerClaim, b: PlayerClaim) {
    claims == [a, b] || claims == [b, a]
  }

  /** A row that is stored as it is, under its own id. */
  predicate StoredAsIs(cl: PlayerClaim) {
    Acceptable(cl.id, cl) && Stored(cl.id, cl) == cl && Indexable(cl)
  }

  function TwoRows(a: PlayerClaim, b: PlayerClaim): Rows {
    map[a.id := a, b.id := b]
  }

  lemma TwoRowsBuild(a: PlayerClaim, b: PlayerClaim)
    requires StoredAsIs(a) && StoredAsIs(b) && a.id != b.id
    ensures Buildable(TwoRows(a, b))
  {
    hide Stored, Acceptable, Indexable;
    StoredId(a.id, a);
    StoredId(b.id, b);
  }

  lemma TwoRowsListed(snapshot: Snapshot, a: PlayerClaim, b: PlayerClaim)
    requires StoredAsIs(a) && StoredAsIs(b) && a.id != b.id && BuiltFrom(snapshot, TwoRows(a, b))
    ensures ListsBoth(snapshot.claims, a, b)
  {
    hide Indexable, Acceptable, Stored, BuiltFrom;
    var keys := RowsListed(snapshot, TwoRows(a, b));
    TwoKeys(keys, a.id, b.id);
  }

  lemma RowsListed(snapshot: Snapshot, rows: Rows) returns (keys: seq<string>)
    requires BuiltFrom(snapshot, rows)
    ensures ListsRows(keys, rows, snapshot.claims)
  {
    hide ListsRows, Indexes, Occupied, Entries, Area;
    keys :| ListsRows(keys, rows, snapshot.claims);
  }

  lemma TwoKeys(keys: seq<string>, a: string, b: string)
    requires Distinct(keys) && a != b && forall key :: key in keys <==> key == a || key == b
    ensures keys == [a, b] || keys == [b, a]
  {
    DistinctPermutation(keys, [a, b]);
    assert |multiset(keys)| == |keys| && |multiset([a, b])| == 2;
    assert keys[0] in keys && keys[1] in keys;
  }

  /**
   For a chunk whose columns do not share the corner's cell there is a payload that builds,
   and from every snapshot of it the loop draws a deny block where enforcement passes the
   action as ambiguous.
   */
  lemma WrongBucketDrawsTooMuch(conversion: Float32 -> int32, chunkX: int32, chunkZ: int32, i: int, j: int)
    returns (rows: Rows, actor: ClaimActor)
    requires 0 <= i < 16 && 0 <= j < 16
    requires ColumnCell(conversion, chunkX, chunkZ, i, j) != ColumnCell(conversion, chunkX, chunkZ, 0, 0)
    ensures Buildable(rows)
    ensures forall snapshot: Snapshot | BuiltFrom(snapshot, rows) ::
              && ColumnDrawn(conversion, snapshot.claims, OVERWORLD, actor, chunkX, chunkZ, i, j)
              && !ColumnEnforced(snapshot.claims, OVERWORLD, actor, ColumnPosition(chunkX, chunkZ, i, j).x, ColumnPosition(chunkX, chunkZ, i, j).z)
  {
    hide BuiltFrom, Buildable, ColumnDrawn, ColumnEnforced, ColumnPosition, StoredAsIs, Filed, OVERWORLD;
    var wide, narrow := WidePlot(chunkX, chunkZ, i, j), NarrowPlot(chunkX, chunkZ, i, j);
    rows, actor := TwoRows(wide, narrow), ClaimActor("visitor", false);
    PlotsAreStoredAsIs(chunkX, chunkZ, i, j);
    TwoRowsBuild(wide, narrow);
    forall snapshot: Snapshot | BuiltFrom(snapshot, rows)
      ensures ColumnDrawn(conversion, snapshot.claims, OVERWORLD, actor, chunkX, chunkZ, i, j)
      ensures !ColumnEnforced(snapshot.claims, OVERWORLD, actor, ColumnPosition(chunkX, chunkZ, i, j).x, ColumnPosition(chunkX, chunkZ, i, j).z)
    {
      TwoRowsListed(snapshot, wide, narrow);
      PlotsDrawTooMuch(conversion, chunkX, chunkZ, i, j, snapshot.claims);
    }
  }

  /** The plot from the corner column to the column. */
  function WidePlot(chunkX: int32, chunkZ: int32, i: int, j: int): PlayerClaim
    requires 0 <= i < 16 && 0 <= j < 16
  {
    var corner, p := ColumnPosition(chunkX, chunkZ, 0, 0), ColumnPosition(chunkX, chunkZ, i, j);
    Plot("wide", Vector2(corner.x, corner.z), Vector2(p.x, p.z))
  }

  /** The plot of the column alone. */
  function NarrowPlot(chunkX: int32, chunkZ: int32, i: int, j: int): PlayerClaim
    requires 0 <= i < 16 && 0 <= j < 16
  {
    var p := ColumnPosition(chunkX, chunkZ, i, j);
    Plot("narrow", Vector2(p.x, p.z), Vector2(p.x, p.z))
  }

  lemma PlotsAreStoredAsIs(chunkX: int32, chunkZ: int32, i: int, j: int)
    requires 0 <= i < 16 && 0 <= j < 16
    ensures StoredAsIs(WidePlot(chunkX, chunkZ, i, j)) && StoredAsIs(NarrowPlot(chunkX, chunkZ, i, j))
    ensures WidePlot(chunkX, chunkZ, i, j).id != NarrowPlot(chunkX, chunkZ, i, j).id
  {
    hide Indexable, RoundToFloat, Stored, Acceptable, OVERWORLD;
    var corner, p := ColumnPosition(chunkX, chunkZ, 0, 0), ColumnPosition(chunkX, chunkZ, i, j);
    PlotIsIndexable(chunkX, chunkZ, i, j, "wide");
    PointIsIndexable(WidePlot(chunkX, chunkZ, i, j), NarrowPlot(chunkX, chunkZ, i, j));
    PlotIsStoredAsIs("wide", Vector2(corner.x, corner.z), Vector2(p.x, p.z));
    PlotIsStoredAsIs("narrow", Vector2(p.x, p.z), Vector2(p.x, p.z));
  }

  lemma PlotIsStoredAsIs(id: string, a: Vector2, b: Vector2)
    requires id != "" && Finite2(a) && Finite2(b)
    ensures Acceptable(id, Plot(id, a, b)) && Stored(id, Plot(id, a, b)) == Plot(id, a, b)
  {
    hide CanonicalDimension, OVERWORLD;
    NamespacedVanilla();
    assert Stored(id, Plot(id, a, b)).features == [];
  }

  /** The same on the claims alone, in either order. */
  lemma PlotsDrawTooMuch(conversion: Float32 -> int32, chunkX: int32, chunkZ: int32, i: int, j: int, claims: seq<PlayerClaim>)
    requires 0 <= i < 16 && 0 <= j < 16
    requires ColumnCell(conversion, chunkX, chunkZ, i, j) != ColumnCell(conversion, chunkX, chunkZ, 0, 0)
    requires ListsBoth(claims, WidePlot(chunkX, chunkZ, i, j), NarrowPlot(chunkX, chunkZ, i, j))
    ensures Filed(claims)
    ensures ColumnDrawn(conversion, claims, OVERWORLD, ClaimActor("visitor", false), chunkX, chunkZ, i, j)
    ensures !ColumnEnforced(claims, OVERWORLD, ClaimActor("visitor", false),
                            ColumnPosition(chunkX, chunkZ, i, j).x, ColumnPosition(chunkX, chunkZ, i, j).z)
  {
    hide Indexable, ToFloat32, CellFor, ColumnClosed, ClaimActionPermitted, ClaimContains, Covers;
    var corner, p := ColumnPosition(chunkX, chunkZ, 0, 0), ColumnPosition(chunkX, chunkZ, i, j);
    var wide, narrow := WidePlot(chunkX, chunkZ, i, j), NarrowPlot(chunkX, chunkZ, i, j);
    PlotIsIndexable(chunkX, chunkZ, i, j, "wide");
    PointIsIndexable(wide, narrow);
    PlotsFoundAt(wide, narrow, conversion, corner, p);
    var key := ColumnCell(conversion, chunkX, chunkZ, 0, 0);
    FilterPair(claims[0], claims[1], InBucket(OVERWORLD, key));
    FilterPair(claims[0], claims[1], InDimension(OVERWORLD));
    FilterPair(claims[0], claims[1], HoldsPoint(p.x, p.z));
    FilterSingle(wide, HoldsPoint(p.x, p.z));
    PlotIsDenied(wide, ClaimActor("visitor", false), p);
  }

  lemma FilterSingle(a: PlayerClaim, keep: PlayerClaim -> bool)
    ensures Filter([a], keep) == if keep(a) then [a] else []
  {
  }

  lemma FilterPair(a: PlayerClaim, b: PlayerClaim, keep: PlayerClaim -> bool)
    ensures Filter([a, b], keep) == (if keep(a) then [a] else []) + (if keep(b) then [b] else [])
  {
    assert [a, b] == [a] + [b];
    FilterConcat([a], [b], keep);
  }

  /** A visitor may not build on a plot without features. */
  lemma PlotIsDenied(cl: PlayerClaim, actor: ClaimActor, position: Vector3)
    requires ValidClaim(cl) && cl.features == [] && actor.xuid != "" && !ClaimOwnerOrTrusted(cl, actor)
    ensures !ClaimActionPermitted(cl, actor, Render, Position(position))
  {
  }

  lemma PointIsIndexable(wide: PlayerClaim, narrow: PlayerClaim)
    requires Indexable(wide) && narrow.location.pos1 == narrow.location.pos2 == wide.location.pos2
    ensures Indexable(narrow)
  {
  }

  lemma PlotsFoundAt(wide: PlayerClaim, narrow: PlayerClaim, conversion: Float32 -> int32, corner: Vector3, p: Vector3)
    requires Indexable(wide) && Indexable(narrow)
    requires wide.location.pos1 == Vector2(corner.x, corner.z) && wide.location.pos2 == Vector2(p.x, p.z)
    requires narrow.location.pos1 == narrow.location.pos2 == Vector2(p.x, p.z)
    ensures ClaimContains(wide, p.x, p.z) && ClaimContains(narrow, p.x, p.z)
    ensures Covers(wide, CellFor(conversion, corner.x, corner.z))
    ensures CellFor(conversion, corner.x, corner.z) != CellFor(conversion, p.x, p.z) ==>
              !Covers(narrow, CellFor(conversion, corner.x, corner.z))
  {
  }

  lemma NotSoundAt(conversion: Float32 -> int32, chunkX: int32, chunkZ: int32, i: int, j: int)
    requires 0 <= i < 16 && 0 <= j < 16
    requires ColumnCell(conversion, chunkX, chunkZ, i, j) != ColumnCell(conversion, chunkX, chunkZ, 0, 0)
    ensures !RenderingSound(conversion, chunkX, chunkZ)
  {
    hide Filed, ColumnDrawn, ColumnEnforced, ColumnPosition, ColumnCell, OVERWORLD, Plot;
    PlotsDrawTooMuch(conversion, chunkX, chunkZ, i, j, [WidePlot(chunkX, chunkZ, i, j), NarrowPlot(chunkX, chunkZ, i, j)]);
  }

  /** Rendering is sound for a chunk, whatever the claims, exactly when its corner bucket serves all its columns. */
  lemma RenderingSoundIff(conversion: Float32 -> int32, chunkX: int32, chunkZ: int32)
    ensures RenderingSound(conversion, chunkX, chunkZ) <==> CornerCellExact(conversion, chunkX, chunkZ)
  {
    hide Filed, ColumnDrawn, ColumnEnforced, ColumnPosition, ColumnCell, OVERWORLD;
    if CornerCellExact(conversion, chunkX, chunkZ) {
      forall claims, dimension, actor, i, j | Filed(claims) && 0 <= i < 16 && 0 <= j < 16
        ensures ColumnDrawn(conversion, claims, dimension, actor, chunkX, chunkZ, i, j) ==>
                ColumnEnforced(claims, dimension, actor, ColumnPosition(chunkX, chunkZ, i, j).x, ColumnPosition(chunkX, chunkZ, i, j).z)
      {
        DrawnIffEnforced(conversion, claims, dimension, actor, chunkX, chunkZ, i, j);
      }
    } else {
      var i, j :| 0 <= i < 16 && 0 <= j < 16 && ColumnCell(conversion, chunkX, chunkZ, i, j) != ColumnCell(conversion, chunkX, chunkZ, 0, 0);
      NotSoundAt(conversion, chunkX, chunkZ, i, j);
    }
  }

  /** For chunks whose columns share a cell, so everywhere within 2^24, the columns drawn are exactly the columns enforced. */
  lemma SharedDrawnIffEnforced(
    conversion: Float32 -> int32, claims: seq<PlayerClaim>, dimension: string, actor: ClaimActor,
    chunkX: int32, chunkZ: int32, i: int, j: int)
    requires Filed(claims) && 0 <= i < 16 && 0 <= j < 16
    requires AxisShared(chunkX) && AxisShared(chunkZ)
    ensures ColumnDrawn(conversion, claims, dimension, actor, chunkX, chunkZ, i, j) <==>
            ColumnEnforced(claims, dimension, actor, ColumnPosition(chunkX, chunkZ, i, j).x, ColumnPosition(chunkX, chunkZ, i, j).z)
  {
    hide Filed, ColumnDrawn, ColumnEnforced, ColumnPosition, ColumnCell, AxisShared;
    CornerCellExactIff(conversion, chunkX, chunkZ);
    DrawnIffEnforced(conversion, claims, dimension, actor, chunkX, chunkZ, i, j);
  }

  // ---------------------------------------------------------------------------
  // One entry of the packet
  // ---------------------------------------------------------------------------

  /** The claims of a built snapshot are filed as the theorems above ask. */
  lemma SnapshotIsFiled(snapshot: Snapshot, rows: Rows)
    requires Buildable(rows) && BuiltFrom(snapshot, rows)
    ensures Filed(snapshot.claims)
  {
    hide Indexable, Stored, Acceptable, CanonicalDimension, FiniteFeatures, ValidClaim, EffectiveId, Indexes, Occupied,
      Entries, Area, AllFinite, IdsDistinct, AllIndexable;
    ClaimsAreIndexable(snapshot, rows);
    ClaimsAreWellFormed(snapshot, rows);
    ClaimsAreDistinct(snapshot, rows);
    var keys :| ListsRows(keys, rows, snapshot.claims);
    forall n | 0 <= n < |keys| ensures FiniteFeatures(snapshot.claims[n]) {
      assert keys[n] in keys;
      StoredFeaturesAreFinite(keys[n], rows[keys[n]]);
    }
  }

  lemma StoredFeaturesAreFinite(key: string, source: PlayerClaim)
    requires Acceptable(key, source)
    ensures FiniteFeatures(Stored(key, source))
  {
    hide CanonicalDimension;
    var stored := Stored(key, source);
    forall n | 0 <= n < |stored.features|
      ensures stored.features[n].fromLocation.Some? ==> Finite3(stored.features[n].fromLocation.value)
      ensures stored.features[n].toLocation.Some? ==> Finite3(stored.features[n].toLocation.value)
    {
      assert ValidateFeature(source.id, source.features[n]).None?;
    }
  }

  /** Where the packet's sub-chunks are counted from, and whether their contents are cached. */
  datatype Head = Head(x: int32, y: int32, z: int32, cached: bool)

  /** What matters of a sub-chunk entry: whether it arrived, how far off the head it lies, and whether it decodes. */
  datatype Entry = Entry(success: bool, dx: int8, dy: int8, dz: int8, decodes: bool)

  /** A position moved by an offset, on 32 bits. */
  function Offset(position: int32, offset: int8): (r: int32)
    ensures SameBits(position as int + offset as int, r as int)
  {
    Wrap32(position as int + offset as int) as int32
  }

  /** The sixteen blocks of the entry's section, on 32 bits, hold the lowest block of the dimension. */
  ghost predicate HoldsLowest(head: Head, entry: Entry, lowest: int32) {
    exists section: int :: SameBits(head.y as int + entry.dy as int, section) && 16 * section <= lowest as int < 16 * section + 16
  }

  lemma SectionIsLowest(head: Head, entry: Entry, lowest: int32)
    ensures HoldsLowest(head, entry, lowest) <==> Offset(head.y, entry.dy) as int == lowest as int / 16
  {
    if section: int :| SameBits(head.y as int + entry.dy as int, section) && 16 * section <= lowest as int < 16 * section + 16 {
      assert section == lowest as int / 16;
    }
    assert SameBits(head.y as int + entry.dy as int, Offset(head.y, entry.dy) as int);
  }

  /** The entry's bottom layer is rewritten at all; `lowest` is the dimension's lowest block. */
  ghost predicate Rewritten(border: Option<Area2D>, rendering: bool, status: QueryStatus, dimension: Option<string>,
    lowest: Option<int32>, head: Head, entry: Entry)
  {
    && (border.None? || border.value.ChunkInside(Offset(head.x, entry.dx), Offset(head.z, entry.dz)))
    && rendering && entry.success && dimension.Some? && status == Ready && !head.cached && entry.decodes
    && lowest.Some? && HoldsLowest(head, entry, lowest.value)
  }

  /**
   Handles one entry: drops it outside the border, leaves it alone unless it is eligible,
   and otherwise draws deny blocks. Where the columns share a cell it draws exactly the columns
   in which the viewer can neither break nor place anything.
   */
  method FilterSubChunkEntry(
    conversion: Float32 -> int32, border: Option<Area2D>, rendering: bool, snapshot: Option<Snapshot>,
    status: QueryStatus, dimension: Option<string>, lowest: Option<int32>, head: Head, entry: Entry,
    denyID: nat, actor: ClaimActor, metrics: Counters, blocks: array2<nat>, ghost rows: Rows)
    returns (kept: bool)
    requires metrics.Valid() && blocks.Length0 == 16 && blocks.Length1 == 16 && blocks as object !in metrics.Repr
    requires status == Ready ==> snapshot.Some?
    requires snapshot.Some? ==> Buildable(rows) && BuiltFrom(snapshot.value, rows)
    modifies blocks, metrics.Repr
    ensures kept <==> border.None? || border.value.ChunkInside(Offset(head.x, entry.dx), Offset(head.z, entry.dz))
    ensures (exists i, j :: 0 <= i < 16 && 0 <= j < 16 && blocks[i, j] != old(blocks[i, j])) ==>
              && kept && rendering && entry.success && !head.cached && entry.decodes && status == Ready && dimension.Some?
              && lowest.Some? && HoldsLowest(head, entry, lowest.value)
    ensures !Rewritten(border, rendering, status, dimension, lowest, head, entry) ==>
              forall i, j :: 0 <= i < 16 && 0 <= j < 16 ==> blocks[i, j] == old(blocks[i, j])
    ensures Rewritten(border, rendering, status, dimension, lowest, head, entry) ==>
              var chunkX, chunkZ := Offset(head.x, entry.dx), Offset(head.z, entry.dz);
              forall i, j :: 0 <= i < 16 && 0 <= j < 16 ==>
                && blocks[i, j] ==
                   (if ColumnDrawn(conversion, snapshot.value.claims, dimension.value, actor, chunkX, chunkZ, i, j) then denyID
                    else old(blocks[i, j]))
                && (AxisShared(chunkX) && AxisShared(chunkZ) ==>
                      blocks[i, j] ==
                      if ColumnEnforced(snapshot.value.claims, dimension.value, actor,
                                        ColumnPosition(chunkX, chunkZ, i, j).x, ColumnPosition(chunkX, chunkZ, i, j).z) then denyID
                      else old(blocks[i, j]))
  {
    hide ColumnDenied, ColumnPosition, ColumnEnforced, ToFloat32, Filed, Buildable, AxisShared, Offset, HoldsLowest;
    var chunkX, chunkZ := Offset(head.x, entry.dx), Offset(head.z, entry.dz);
    if border.Some? && !border.value.ChunkInside(chunkX, chunkZ) {
      return false;
    }
    kept := true;
    if !rendering {
      return;
    }
    if !entry.success || lowest.None? || dimension.None? || status != Ready || head.cached {
      return;
    }
    var candidates := snapshot.value.Candidates(conversion, dimension.value, ToFloat32(Corner(chunkX)), ToFloat32(Corner(chunkZ)));
    metrics.Candidates(|candidates|);
    SectionIsLowest(head, entry, lowest.value);
    var section := Offset(head.y, entry.dy);
    if section as int != lowest.value as int / 16 {
      return;
    }
    ghost var claims := snapshot.value.claims;
    assert candidates == Filter(claims, InBucket(dimension.value, ColumnCell(conversion, chunkX, chunkZ, 0, 0)));
    SnapshotIsFiled(snapshot.value, rows);
    forall i, j | 0 <= i < 16 && 0 <= j < 16 && AxisShared(chunkX) && AxisShared(chunkZ)
      ensures ColumnDrawn(conversion, claims, dimension.value, actor, chunkX, chunkZ, i, j) <==>
              ColumnEnforced(claims, dimension.value, actor, ColumnPosition(chunkX, chunkZ, i, j).x, ColumnPosition(chunkX, chunkZ, i, j).z)
    {
      SharedDrawnIffEnforced(conversion, claims, dimension.value, actor, chunkX, chunkZ, i, j);
    }
    if |candidates| == 0 {
      NothingToDraw(candidates, actor);
      return;
    }
    if !entry.decodes {
      return;
    }
    var modified := ApplyClaimDenyBlocks(candidates, chunkX, chunkZ, denyID, actor, metrics, blocks);
  }

  /** A column is enforced exactly when one row of the payload alone has it, and allows nothing to be built or mined there. */
  lemma EnforcedIffPayloadRefuses(
    snapshot: Snapshot, rows: Rows, conversion: Float32 -> int32, dimension: string, actor: ClaimActor, position: Vector3)
    requires Buildable(rows) && BuiltFrom(snapshot, rows)
    ensures ColumnEnforced(snapshot.claims, dimension, actor, position.x, position.z) <==>
            PayloadRefuses(rows, dimension, actor, Render, Position(position))
  {
    hide BuiltFrom, Buildable, ScanHits, IsOnlyRow, AllAcceptable, PayloadRefuses, Policy.ClaimActionPermitted, ColumnClosed,
      FiniteFeatures, ValidClaim, Indexable;
    var hits := ScanHits(snapshot.claims, dimension, position.x, position.z);
    ScanFindsTheRow(snapshot, rows, conversion, dimension, position.x, position.z);
    AreAcceptable(rows);
    RowRefuses(hits, rows, dimension, actor, Render, Position(position));
    if |hits| == 1 {
      SnapshotIsFiled(snapshot, rows);
      ScanHitIsClaim(snapshot.claims, dimension, position.x, position.z);
      assert hits[0] in hits;
      var n :| 0 <= n < |snapshot.claims| && snapshot.claims[n] == hits[0];
      RenderedDenyIsExact(hits[0], actor, position);
    }
  }

  lemma ScanHitIsClaim(claims: seq<PlayerClaim>, dimension: string, x: Float32, z: Float32)
    ensures forall cl :: cl in ScanHits(claims, dimension, x, z) ==> cl in claims
  {
    forall cl | cl in ScanHits(claims, dimension, x, z) ensures cl in claims {
      FilterMembers(Filter(claims, InDimension(dimension)), HoldsPoint(x, z), cl);
      FilterMembers(claims, InDimension(dimension), cl);
    }
  }

  lemma NothingToDraw(claims: seq<PlayerClaim>, actor: ClaimActor)
    requires claims == []
    ensures forall position :: !ColumnDenied(claims, actor, position)
  {
  }

  /** In an enforced column the session refuses every break and place, at every height and for every type. */
  lemma EnforcedMeansRefused(
    snapshot: Snapshot, dimension: int32, definitions: seq<DimensionDefinition>, actor: ClaimActor,
    x: Float32, z: Float32, data: ActionData, action: ClaimAction)
    requires Resolution(dimension, definitions).Some?
    requires ColumnEnforced(snapshot.claims, Resolution(dimension, definitions).value, actor, x, z)
    requires !data.Malformed? && data.position.x == x && data.position.z == z
    requires action == BlockBreak || action == BlockPlace
    ensures var verdict := Judge(true, data, Some(snapshot), Ready, dimension, definitions);
            verdict.Judged? && !ClaimActionPermitted(verdict.cl, actor, action, data)
  {
    hide ClaimActionPermitted, Hits, Resolution, Filter;
    assert data.position == Vector3(x, data.position.y, z);
  }
}
