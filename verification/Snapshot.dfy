/**
 The claim snapshot: claims bucketed by the 16-block cells their rectangles cover.
 `BuildSnapshot` is proved to index every claim in exactly its own cells; what that
 buys a reader is in `Lookup`.
 */
module Snapshots {
  import opened Wrappers
  import opened Numbers
  import opened Claims
  import opened Sequences

  const POLICY_VERSION := 1
  const SCHEMA_VERSION := 1
  const MAX_CELLS_PER_CLAIM := 0x4_0000

  /** Instants in nanoseconds; Go's zero time is `ZERO_TIME`. */
  type Time = int
  const ZERO_TIME: Time := -62135596800_000_000_000
  const MAX_DURATION: int := 0x7FFF_FFFF_FFFF_FFFF

  datatype CellKey = CellKey(x: int32, z: int32)
  type CellMap = map<string, map<CellKey, seq<PlayerClaim>>>

  datatype BuildError =
    | InvalidClaim(reason: ClaimError)
    | DuplicateId(id: string)
    | BoundsExceedIndex(id: string)
    | TooManyCells(id: string)

  datatype Snapshot = Snapshot(
    policyVersion: int,
    schemaVersion: int,
    generation: nat,
    generatedAt: Time,
    fetchedAt: Time,
    claimCount: nat,
    cellCount: nat,
    claims: seq<PlayerClaim>,
    cells: CellMap)
  {
    predicate Supported() {
      policyVersion == POLICY_VERSION && schemaVersion == SCHEMA_VERSION
    }

    /** Elapsed time since the last fetch: never negative, saturating like `time.Duration`. */
    function Age(now: Time): int {
      if fetchedAt == ZERO_TIME || now - fetchedAt > MAX_DURATION then MAX_DURATION
      else if now < fetchedAt then 0
      else now - fetchedAt
    }

    /** The claims of the one cell that contains x, z. */
    function Candidates(conversion: Float32 -> int32, dimension: string, x: Float32, z: Float32): seq<PlayerClaim> {
      Bucket(cells, dimension, CellFor(conversion, x, z))
    }
  }

  // ---------------------------------------------------------------------------
  // Cells
  // ---------------------------------------------------------------------------

  function CellOf(v: real): int {
    (v / 16.0).Floor
  }

  /** `math.Floor(float64(v) / cellSize)`: special values stay what they are. */
  function FloorCell(v: Float32): Float32 {
    if v.Finite? then Finite(CellOf(v.value) as real) else v
  }

  /**
   `int32(f)` for a float that may not fit: Go leaves the result to the platform, so
   out of range it is whatever `conversion` says.
   */
  function ToInt32(conversion: Float32 -> int32, f: Float32): int32 {
    if f.Finite? && FitsInt32(f.value.Floor) then f.value.Floor as int32 else conversion(f)
  }

  function CellFor(conversion: Float32 -> int32, x: Float32, z: Float32): CellKey {
    CellKey(ToInt32(conversion, FloorCell(x)), ToInt32(conversion, FloorCell(z)))
  }

  /** `f < math.MinInt32 || f > math.MaxInt32`, false for NaN. */
  predicate OutsideInt32(f: Float32) {
    match f
    case Finite(v) => v < -0x8000_0000 as real || v > 0x7FFF_FFFF as real
    case Infinite(_) => true
    case NaN => false
  }

  function CheckedCellFor(conversion: Float32 -> int32, x: Float32, z: Float32): Option<CellKey> {
    if OutsideInt32(FloorCell(x)) || OutsideInt32(FloorCell(z)) then None
    else Some(CellFor(conversion, x, z))
  }

  /** Missing dimension or missing cell: the nil slice. */
  function Bucket(cells: CellMap, dimension: string, key: CellKey): seq<PlayerClaim> {
    if dimension in cells && key in cells[dimension] then cells[dimension][key] else []
  }

  // ---------------------------------------------------------------------------
  // The rectangle of a claim, in blocks and in cells
  // ---------------------------------------------------------------------------

  function MinX(cl: PlayerClaim): Float32 { Min(cl.location.pos1.x, cl.location.pos2.x) }
  function MaxX(cl: PlayerClaim): Float32 { Max(cl.location.pos1.x, cl.location.pos2.x) }
  function MinZ(cl: PlayerClaim): Float32 { Min(cl.location.pos1.z, cl.location.pos2.z) }
  function MaxZ(cl: PlayerClaim): Float32 { Max(cl.location.pos1.z, cl.location.pos2.z) }

  predicate FiniteBounds(cl: PlayerClaim) {
    Finite2(cl.location.pos1) && Finite2(cl.location.pos2)
  }

  /** A rectangle of cells, both ends included. */
  datatype CellRect = CellRect(minX: int, maxX: int, minZ: int, maxZ: int) {
    function Width(): int { maxX - minX + 1 }
    function Depth(): int { maxZ - minZ + 1 }

    predicate InRange() {
      FitsInt32(minX) && FitsInt32(maxX) && FitsInt32(minZ) && FitsInt32(maxZ)
    }

    predicate Small() {
      Width() <= MAX_CELLS_PER_CLAIM && Depth() <= MAX_CELLS_PER_CLAIM && Width() * Depth() <= MAX_CELLS_PER_CLAIM
    }

    predicate Has(key: CellKey) {
      minX <= key.x as int <= maxX && minZ <= key.z as int <= maxZ
    }
  }

  function CellsOf(cl: PlayerClaim): (r: CellRect)
    requires FiniteBounds(cl)
    ensures r.Width() >= 1 && r.Depth() >= 1
  {
    CellRect(
      CellOf(MinX(cl).value), CellOf(MaxX(cl).value),
      CellOf(MinZ(cl).value), CellOf(MaxZ(cl).value))
  }

  /** The rectangle is representable and within the per-claim ceiling. */
  predicate Indexable(cl: PlayerClaim) {
    FiniteBounds(cl) && CellsOf(cl).InRange() && CellsOf(cl).Small()
  }

  predicate Covers(cl: PlayerClaim, key: CellKey) {
    FiniteBounds(cl) && CellsOf(cl).Has(key)
  }

  /** Which claims belong in the bucket of `key`. */
  function InBucket(dimension: string, key: CellKey): PlayerClaim -> bool {
    (cl: PlayerClaim) => cl.location.dimension == dimension && Covers(cl, key)
  }

  /** Cell `k` has the blocks from `16 * k` up to, but not including, `16 * k + 16`. */
  predicate CellHas(k: int, v: real) {
    (16 * k) as real <= v < (16 * k + 16) as real
  }

  /** The claim's rectangle and the blocks of the cell have a point in common. */
  ghost predicate MeetsSquare(cl: PlayerClaim, key: CellKey) {
    && cl.location.pos1.x.Finite? && cl.location.pos1.z.Finite? && cl.location.pos2.x.Finite? && cl.location.pos2.z.Finite?
    && (exists x :: CellHas(key.x as int, x) && Between(cl.location.pos1.x.value, cl.location.pos2.x.value, x))
    && (exists z :: CellHas(key.z as int, z) && Between(cl.location.pos1.z.value, cl.location.pos2.z.value, z))
  }

  lemma CellBrackets(v: real)
    ensures CellHas(CellOf(v), v)
  {
    var c := (v / 16.0).Floor;
    assert c as real <= v / 16.0 < c as real + 1.0;
    assert v == v / 16.0 * 16.0;
  }

  lemma CellIs(k: int, v: real)
    requires CellHas(k, v)
    ensures CellOf(v) == k
  {
    CellBrackets(v);
  }

  /** Along one axis: an interval reaches into a cell's blocks exactly when the cell lies between those of its ends. */
  lemma AxisMeets(a: real, b: real, lo: real, hi: real, k: int)
    requires lo <= hi && ((a == lo && b == hi) || (a == hi && b == lo))
    ensures CellOf(lo) <= k <= CellOf(hi) <==> exists v :: CellHas(k, v) && Between(a, b, v)
  {
    CellBrackets(lo);
    CellBrackets(hi);
    hide CellOf;
    if CellOf(lo) <= k <= CellOf(hi) {
      var v := if lo <= (16 * k) as real then (16 * k) as real else lo;
      assert CellHas(k, v) && Between(a, b, v);
    }
  }

  /** A claim covers exactly the cells whose blocks its rectangle reaches into. */
  lemma CoversIffMeets(cl: PlayerClaim, key: CellKey)
    ensures Covers(cl, key) <==> MeetsSquare(cl, key)
  {
    hide CellOf, CellHas, Between;
    if FiniteBounds(cl) {
      AxisMeets(cl.location.pos1.x.value, cl.location.pos2.x.value, MinX(cl).value, MaxX(cl).value, key.x as int);
      AxisMeets(cl.location.pos1.z.value, cl.location.pos2.z.value, MinZ(cl).value, MaxZ(cl).value, key.z as int);
    }
  }

  /** A claim fits the index when the cells of its corners have 32-bit numbers and span at most 2^18 cells. */
  lemma IndexableOnCorners(cl: PlayerClaim, x1: int, x2: int, z1: int, z2: int)
    requires cl.location.pos1.x.Finite? && cl.location.pos1.z.Finite? && cl.location.pos2.x.Finite? && cl.location.pos2.z.Finite?
    requires CellHas(x1, cl.location.pos1.x.value) && CellHas(x2, cl.location.pos2.x.value)
    requires CellHas(z1, cl.location.pos1.z.value) && CellHas(z2, cl.location.pos2.z.value)
    ensures Indexable(cl) <==>
              && -2147483648 <= x1 <= 2147483647 && -2147483648 <= x2 <= 2147483647
              && -2147483648 <= z1 <= 2147483647 && -2147483648 <= z2 <= 2147483647
              && ((if x1 <= x2 then x2 - x1 else x1 - x2) + 1) * ((if z1 <= z2 then z2 - z1 else z1 - z2) + 1) <= 262144
  {
    CellIs(x1, cl.location.pos1.x.value);
    CellIs(x2, cl.location.pos2.x.value);
    CellIs(z1, cl.location.pos1.z.value);
    CellIs(z2, cl.location.pos2.z.value);
    hide CellOf;
    var r := CellsOf(cl);
    assert r.Width() == (if x1 <= x2 then x2 - x1 else x1 - x2) + 1;
    assert r.Depth() == (if z1 <= z2 then z2 - z1 else z1 - z2) + 1;
    FactorsWithin(r.Width(), r.Depth());
    hide CellsOf;
  }

  lemma FactorsWithin(a: int, b: int)
    requires a >= 1 && b >= 1
    ensures a * b >= a && a * b >= b
  {
  }

  lemma CheckedCellIsFloor(conversion: Float32 -> int32, x: real, z: real)
    ensures CheckedCellFor(conversion, Finite(x), Finite(z)) ==
            if FitsInt32(CellOf(x)) && FitsInt32(CellOf(z))
            then Some(CellKey(CellOf(x) as int32, CellOf(z) as int32)) else None
  {
  }

  // ---------------------------------------------------------------------------
  // Index accounting
  // ---------------------------------------------------------------------------

  type Place = (string, CellKey)

  /** The places whose bucket is not empty. */
  ghost function Occupied(cells: CellMap): set<Place> {
    set dimension, key | dimension in cells && key in cells[dimension] && cells[dimension][key] != [] :: (dimension, key)
  }

  ghost function EntriesIn(places: set<Place>, cells: CellMap): nat {
    if places == {} then 0
    else
      var p :| p in places;
      |Bucket(cells, p.0, p.1)| + EntriesIn(places - {p}, cells)
  }

  /** Total length of all buckets. */
  ghost function Entries(cells: CellMap): nat {
    EntriesIn(Occupied(cells), cells)
  }

  lemma {:induction false} EntriesPick(places: set<Place>, cells: CellMap, p: Place)
    requires p in places
    ensures EntriesIn(places, cells) == |Bucket(cells, p.0, p.1)| + EntriesIn(places - {p}, cells)
  {
    var q :| q in places && EntriesIn(places, cells) == |Bucket(cells, q.0, q.1)| + EntriesIn(places - {q}, cells);
    if q != p {
      EntriesPick(places - {q}, cells, p);
      EntriesPick(places - {p}, cells, q);
      assert places - {q} - {p} == places - {p} - {q};
    }
  }

  lemma {:induction false} EntriesFrame(places: set<Place>, a: CellMap, b: CellMap)
    requires forall p :: p in places ==> Bucket(a, p.0, p.1) == Bucket(b, p.0, p.1)
    ensures EntriesIn(places, a) == EntriesIn(places, b)
  {
    if places != {} {
      var p :| p in places;
      EntriesPick(places, a, p);
      EntriesPick(places, b, p);
      EntriesFrame(places - {p}, a, b);
    }
  }

  /** `dimensionCells[key] = append(dimensionCells[key], cl)`. */
  function AppendTo(cells: CellMap, dimension: string, key: CellKey, cl: PlayerClaim): CellMap {
    var dimensionCells := if dimension in cells then cells[dimension] else map[];
    cells[dimension := dimensionCells[key := Bucket(cells, dimension, key) + [cl]]]
  }

  /** One append changes one bucket, by one entry. */
  lemma AppendToChangesOneBucket(cells: CellMap, dimension: string, key: CellKey, cl: PlayerClaim)
    ensures forall d, k :: Bucket(AppendTo(cells, dimension, key, cl), d, k) ==
              Bucket(cells, d, k) + (if d == dimension && k == key then [cl] else [])
  {
  }

  lemma OccupiedIsNonEmpty(cells: CellMap, p: Place)
    ensures p in Occupied(cells) <==> Bucket(cells, p.0, p.1) != []
  {
  }

  lemma AppendToOccupies(cells: CellMap, dimension: string, key: CellKey, cl: PlayerClaim)
    ensures Occupied(AppendTo(cells, dimension, key, cl)) == Occupied(cells) + {(dimension, key)}
  {
    var after := AppendTo(cells, dimension, key, cl);
    AppendToChangesOneBucket(cells, dimension, key, cl);
    forall p: Place ensures p in Occupied(after) <==> p in Occupied(cells) + {(dimension, key)} {
      OccupiedIsNonEmpty(after, p);
      OccupiedIsNonEmpty(cells, p);
    }
  }

  /** One append adds one entry to the index and, if the bucket was empty, one occupied place. */
  lemma AppendToCounts(cells: CellMap, dimension: string, key: CellKey, cl: PlayerClaim)
    ensures |Occupied(AppendTo(cells, dimension, key, cl))| ==
            |Occupied(cells)| + if Bucket(cells, dimension, key) == [] then 1 else 0
    ensures Entries(AppendTo(cells, dimension, key, cl)) == Entries(cells) + 1
  {
    hide AppendTo, Bucket, Occupied;
    var after := AppendTo(cells, dimension, key, cl);
    var place: Place := (dimension, key);
    var others := Occupied(cells) - {place};
    AppendToChangesOneBucket(cells, dimension, key, cl);
    AppendToOccupies(cells, dimension, key, cl);
    OccupiedIsNonEmpty(cells, place);
    EntriesPick(Occupied(after), after, place);
    assert Occupied(after) - {place} == others;
    EntriesFrame(others, after, cells);
    if place in Occupied(cells) {
      assert Occupied(after) == Occupied(cells);
      EntriesPick(Occupied(cells), cells, place);
    } else {
      assert others == Occupied(cells);
    }
  }

  /** The index holds every claim of `claims` once in every cell it covers, and nothing else. */
  ghost predicate Indexes(cells: CellMap, claims: seq<PlayerClaim>) {
    forall d, k :: Bucket(cells, d, k) == Filter(claims, InBucket(d, k))
  }

  /** Sum of width * depth over the claims. */
  ghost function Area(claims: seq<PlayerClaim>): int
    requires forall i :: 0 <= i < |claims| ==> FiniteBounds(claims[i])
  {
    if claims == [] then 0
    else
      var last := claims[|claims| - 1];
      Area(claims[..|claims| - 1]) + CellsOf(last).Width() * CellsOf(last).Depth()
  }

  // ---------------------------------------------------------------------------
  // Indexing one claim
  // ---------------------------------------------------------------------------

  /** Cells of `r` already visited when the nested loops stand at (x, z). */
  ghost predicate Visited(r: CellRect, x: int, z: int, key: CellKey) {
    r.Has(key) && (key.x as int < x || (key.x as int == x && key.z as int < z))
  }

  /** `after` is `before` with `cl` appended to the visited cells of its dimension. */
  ghost predicate Extended(before: CellMap, after: CellMap, cl: PlayerClaim, r: CellRect, x: int, z: int) {
    forall d, k :: Bucket(after, d, k) ==
      Bucket(before, d, k) + (if d == cl.location.dimension && Visited(r, x, z, k) then [cl] else [])
  }

  ghost predicate Accounted(cells: CellMap, cellCount: int) {
    cellCount == |Occupied(cells)|
  }

  /** The loop over one column of cells. */
  method IndexColumn(before: CellMap, count: int, cl: PlayerClaim, x: int64, minZ: int64, maxZ: int64, ghost r: CellRect, ghost origin: CellMap)
    returns (after: CellMap, cellCount: int)
    requires FiniteBounds(cl) && r == CellsOf(cl) && r.InRange()
    requires r.minX <= x as int <= r.maxX && minZ as int == r.minZ && maxZ as int == r.maxZ
    requires Accounted(before, count) && Extended(origin, before, cl, r, x as int, r.minZ)
    ensures Accounted(after, cellCount) && Extended(origin, after, cl, r, x as int + 1, r.minZ)
    ensures Entries(after) == Entries(before) + r.Depth()
  {
    hide Entries, Occupied, AppendTo, Extended, CellsOf;
    after, cellCount := before, count;
    var z := minZ;
    while z <= maxZ
      invariant minZ <= z <= maxZ + 1
      invariant Accounted(after, cellCount)
      invariant Extended(origin, after, cl, r, x as int, z as int)
      invariant Entries(after) == Entries(before) + (z - minZ) as int
    {
      var key := CellKey(x as int32, z as int32);
      AppendToChangesOneBucket(after, cl.location.dimension, key, cl);
      AppendToCounts(after, cl.location.dimension, key, cl);
      if |Bucket(after, cl.location.dimension, key)| == 0 {
        cellCount := cellCount + 1;
      }
      ghost var previous := after;
      after := AppendTo(after, cl.location.dimension, key, cl);
      VisitedNext(origin, previous, after, cl, r, x as int, z as int, key);
      z := z + 1;
    }
    NextColumn(origin, after, cl, r, x as int);
  }

  lemma NextColumn(origin: CellMap, after: CellMap, cl: PlayerClaim, r: CellRect, x: int)
    requires Extended(origin, after, cl, r, x, r.maxZ + 1)
    ensures Extended(origin, after, cl, r, x + 1, r.minZ)
  {
    forall d, k
      ensures Bucket(after, d, k) ==
              Bucket(origin, d, k) + (if d == cl.location.dimension && Visited(r, x + 1, r.minZ, k) then [cl] else [])
    {
      assert Visited(r, x, r.maxZ + 1, k) <==> Visited(r, x + 1, r.minZ, k);
    }
  }

  lemma VisitedNext(origin: CellMap, before: CellMap, after: CellMap, cl: PlayerClaim, r: CellRect, x: int, z: int, key: CellKey)
    requires key.x as int == x && key.z as int == z && r.Has(key)
    requires Extended(origin, before, cl, r, x, z)
    requires forall d, k :: Bucket(after, d, k) ==
               Bucket(before, d, k) + (if d == cl.location.dimension && k == key then [cl] else [])
    ensures Extended(origin, after, cl, r, x, z + 1)
  {
    forall d, k
      ensures Bucket(after, d, k) ==
              Bucket(origin, d, k) + (if d == cl.location.dimension && Visited(r, x, z + 1, k) then [cl] else [])
    {
      if d == cl.location.dimension && k == key {
        assert !Visited(r, x, z, k);
      } else {
        assert d == cl.location.dimension ==> (Visited(r, x, z + 1, k) <==> Visited(r, x, z, k));
      }
    }
  }

  /** `after` is `before` with `cl` appended to every bucket it belongs in. */
  ghost predicate IndexedOneMore(before: CellMap, after: CellMap, cl: PlayerClaim) {
    forall d, k :: Bucket(after, d, k) == Bucket(before, d, k) + (if InBucket(d, k)(cl) then [cl] else [])
  }

  /** Adds one validated claim to the index, or says why its rectangle cannot be indexed. */
  method IndexClaim(conversion: Float32 -> int32, before: CellMap, count: int, cl: PlayerClaim)
    returns (after: CellMap, cellCount: int, problem: Option<BuildError>)
    requires FiniteBounds(cl) && Accounted(before, count)
    ensures problem.None? <==> Indexable(cl)
    ensures problem.Some? ==> problem.value == Misfit(cl)
    ensures problem.None? ==> Accounted(after, cellCount)
    ensures problem.None? ==> Entries(after) == Entries(before) + CellsOf(cl).Width() * CellsOf(cl).Depth()
    ensures problem.None? ==> IndexedOneMore(before, after, cl)
  {
    after, cellCount := before, count;
    var minX, minZ, maxX, maxZ: int64;
    problem, minX, minZ, maxX, maxZ := SpanOf(conversion, cl);
    if problem.Some? {
      return;
    }
    after, cellCount := IndexCells(before, count, cl, minX, minZ, maxX, maxZ, CellsOf(cl));
  }

  /** The corner cells of a claim, unless they are unrepresentable or too far apart. */
  method SpanOf(conversion: Float32 -> int32, cl: PlayerClaim)
    returns (problem: Option<BuildError>, minX: int64, minZ: int64, maxX: int64, maxZ: int64)
    requires FiniteBounds(cl)
    ensures problem == if Indexable(cl) then None else Some(Misfit(cl))
    ensures problem.None? ==> CellsOf(cl) == CellRect(minX as int, maxX as int, minZ as int, maxZ as int)
  {
    minX, minZ, maxX, maxZ := 0, 0, 0, 0;
    CheckedCellIsFloor(conversion, MinX(cl).value, MinZ(cl).value);
    CheckedCellIsFloor(conversion, MaxX(cl).value, MaxZ(cl).value);
    var minCell := CheckedCellFor(conversion, MinX(cl), MinZ(cl));
    if minCell.None? {
      problem := Some(BoundsExceedIndex(cl.id));
      return;
    }
    var maxCell := CheckedCellFor(conversion, MaxX(cl), MaxZ(cl));
    if maxCell.None? {
      problem := Some(BoundsExceedIndex(cl.id));
      return;
    }
    minX, minZ := minCell.value.x as int64, minCell.value.z as int64;
    maxX, maxZ := maxCell.value.x as int64, maxCell.value.z as int64;
    var width := maxX - minX + 1;
    var depth := maxZ - minZ + 1;
    if width > MAX_CELLS_PER_CLAIM as int64 || depth > MAX_CELLS_PER_CLAIM as int64
       || Product(width, depth) > MAX_CELLS_PER_CLAIM as int64 {
      problem := Some(TooManyCells(cl.id));
      return;
    }
    problem := None;
  }

  /** The loop over the columns of cells. */
  method IndexCells(before: CellMap, count: int, cl: PlayerClaim, minX: int64, minZ: int64, maxX: int64, maxZ: int64, ghost r: CellRect)
    returns (after: CellMap, cellCount: int)
    requires FiniteBounds(cl) && Accounted(before, count) && r.InRange()
    requires r == CellsOf(cl) == CellRect(minX as int, maxX as int, minZ as int, maxZ as int)
    ensures Accounted(after, cellCount)
    ensures Entries(after) == Entries(before) + r.Width() * r.Depth()
    ensures IndexedOneMore(before, after, cl)
  {
    hide Accounted, Entries, Extended, CellsOf;
    after, cellCount := before, count;
    NoColumns(before, cl, r);
    var x := minX;
    ghost var columns := 0;
    while x <= maxX
      invariant minX <= x <= maxX + 1 && columns == x as int - minX as int
      invariant Accounted(after, cellCount)
      invariant Extended(before, after, cl, r, x as int, r.minZ)
      invariant Entries(after) == Entries(before) + columns * r.Depth()
    {
      after, cellCount := IndexColumn(after, cellCount, cl, x, minZ, maxZ, r, before);
      OneMore(columns, r.Depth());
      columns := columns + 1;
      x := x + 1;
    }
    AllColumns(before, after, cl, r);
  }

  lemma NoColumns(before: CellMap, cl: PlayerClaim, r: CellRect)
    ensures Extended(before, before, cl, r, r.minX, r.minZ)
  {
  }

  lemma AllColumns(before: CellMap, after: CellMap, cl: PlayerClaim, r: CellRect)
    requires FiniteBounds(cl) && r == CellsOf(cl)
    requires Extended(before, after, cl, r, r.maxX + 1, r.minZ)
    ensures IndexedOneMore(before, after, cl)
  {
    forall d, k
      ensures Bucket(after, d, k) == Bucket(before, d, k) + (if InBucket(d, k)(cl) then [cl] else [])
    {
      assert Visited(r, r.maxX + 1, r.minZ, k) <==> Covers(cl, k);
    }
  }

  lemma OneMore(n: int, d: int)
    ensures (n + 1) * d == n * d + d
  {
  }

  /** The guarded 64-bit product: with both factors within the ceiling it cannot overflow. */
  function Product(width: int64, depth: int64): (p: int64)
    requires 0 <= width <= MAX_CELLS_PER_CLAIM as int64 && 0 <= depth <= MAX_CELLS_PER_CLAIM as int64
    ensures p as int == width as int * depth as int
  {
    assert width as int * depth as int <= MAX_CELLS_PER_CLAIM * MAX_CELLS_PER_CLAIM by {
      ProductBound(width as int, depth as int, MAX_CELLS_PER_CLAIM);
    }
    width * depth
  }

  lemma ProductBound(a: int, b: int, limit: int)
    requires 0 <= a <= limit && 0 <= b <= limit
    ensures 0 <= a * b <= limit * limit
  {
  }

  // ---------------------------------------------------------------------------
  // Building a snapshot from the rows of one payload
  // ---------------------------------------------------------------------------

  type Rows = map<string, PlayerClaim>

  ghost predicate AllAcceptable(rows: Rows) {
    forall key :: key in rows ==> Acceptable(key, rows[key])
  }

  ghost predicate IdsDistinct(rows: Rows) {
    forall a, b :: a in rows && b in rows && a != b ==> EffectiveId(a, rows[a]) != EffectiveId(b, rows[b])
  }

  ghost predicate AllIndexable(rows: Rows) {
    forall key :: key in rows ==> Indexable(Stored(key, rows[key]))
  }

  /** When a payload builds. Nothing here depends on the order rows are visited in. */
  ghost predicate Buildable(rows: Rows) {
    AllAcceptable(rows) && IdsDistinct(rows) && AllIndexable(rows)
  }

  /** `stored` are the rows, each copied once, in the order of `keys`. */
  ghost predicate ListsRows(keys: seq<string>, rows: Rows, stored: seq<PlayerClaim>) {
    && Distinct(keys)
    && (forall key :: key in keys <==> key in rows)
    && |stored| == |keys|
    && forall i :: 0 <= i < |keys| ==> stored[i] == Stored(keys[i], rows[keys[i]])
  }

  ghost predicate AllFinite(claims: seq<PlayerClaim>) {
    forall i :: 0 <= i < |claims| ==> FiniteBounds(claims[i])
  }

  /** `snapshot` holds exactly the rows, indexed, with its counters right. */
  ghost predicate BuiltFrom(snapshot: Snapshot, rows: Rows) {
    && snapshot.Supported()
    && snapshot.claimCount == |rows|
    && (exists keys :: ListsRows(keys, rows, snapshot.claims))
    && Indexes(snapshot.cells, snapshot.claims)
    && snapshot.cellCount == |Occupied(snapshot.cells)|
    && AllFinite(snapshot.claims)
    && Entries(snapshot.cells) == Area(snapshot.claims)
  }

  /** `error` points at a row that really is at fault. */
  ghost predicate Justified(error: BuildError, rows: Rows) {
    match error
    case InvalidClaim(_) => exists key :: key in rows && !Acceptable(key, rows[key])
    case DuplicateId(id) =>
      exists a, b :: a in rows && b in rows && a != b && EffectiveId(a, rows[a]) == id == EffectiveId(b, rows[b])
    case BoundsExceedIndex(id) =>
      exists key :: key in rows && EffectiveId(key, rows[key]) == id
                    && FiniteBounds(rows[key]) && !CellsOf(rows[key]).InRange()
    case TooManyCells(id) =>
      exists key :: key in rows && EffectiveId(key, rows[key]) == id
                    && FiniteBounds(rows[key]) && CellsOf(rows[key]).InRange() && !CellsOf(rows[key]).Small()
  }

  /** What the first loop knows: the visited rows are acceptable, copied, and differ in their ids. */
  ghost predicate Visiting(rows: Rows, keys: seq<string>, stored: seq<PlayerClaim>, ids: set<string>, remaining: set<string>) {
    && remaining <= rows.Keys
    && Distinct(keys) && |stored| == |keys|
    && (forall key :: key in keys <==> key in rows && key !in remaining)
    && (forall i :: 0 <= i < |keys| ==> Acceptable(keys[i], rows[keys[i]]) && stored[i] == Stored(keys[i], rows[keys[i]]))
    && (forall id :: id in ids <==> exists i :: 0 <= i < |stored| && stored[i].id == id)
    && (forall i, j :: 0 <= i < j < |stored| ==> stored[i].id != stored[j].id)
  }

  lemma VisitingNext(rows: Rows, keys: seq<string>, stored: seq<PlayerClaim>, ids: set<string>, remaining: set<string>, key: string)
    requires Visiting(rows, keys, stored, ids, remaining)
    requires key in remaining && Acceptable(key, rows[key]) && Stored(key, rows[key]).id !in ids
    ensures Visiting(rows, keys + [key], stored + [Stored(key, rows[key])], ids + {Stored(key, rows[key]).id}, remaining - {key})
  {
    hide Acceptable, Stored;
    var cl := Stored(key, rows[key]);
    assert (stored + [cl])[|stored|] == cl;
    forall id ensures id in ids + {cl.id} <==> exists i :: 0 <= i < |stored + [cl]| && (stored + [cl])[i].id == id {
      if id in ids {
        var i :| 0 <= i < |stored| && stored[i].id == id;
        assert (stored + [cl])[i].id == id;
      }
    }
    assert forall k :: k in keys + [key] <==> k in keys || k == key;
  }

  lemma VisitingDone(rows: Rows, keys: seq<string>, stored: seq<PlayerClaim>, ids: set<string>)
    requires Visiting(rows, keys, stored, ids, {})
    ensures AllAcceptable(rows) && IdsDistinct(rows) && ListsRows(keys, rows, stored)
  {
    hide Acceptable, Stored;
    forall i, a | 0 <= i < |keys| && keys[i] == a ensures stored[i].id == EffectiveId(a, rows[a]) {
      assert a in keys;
      StoredId(a, rows[a]);
    }
    forall a, b | a in rows && b in rows && a != b ensures EffectiveId(a, rows[a]) != EffectiveId(b, rows[b]) {
      assert a in keys && b in keys;
      var i :| 0 <= i < |keys| && keys[i] == a;
      var j :| 0 <= j < |keys| && keys[j] == b;
      assert stored[i].id != stored[j].id;
    }
  }

  lemma RepeatedId(rows: Rows, keys: seq<string>, stored: seq<PlayerClaim>, ids: set<string>, remaining: set<string>, key: string)
    requires Visiting(rows, keys, stored, ids, remaining) && key in remaining
    requires Stored(key, rows[key]).id in ids
    ensures !IdsDistinct(rows) && Justified(DuplicateId(Stored(key, rows[key]).id), rows)
  {
    hide Acceptable;
    var i :| 0 <= i < |stored| && stored[i].id == Stored(key, rows[key]).id;
    assert keys[i] in keys;
  }

  /** The first loop: validates and copies rows in whatever order the map yields them. */
  method ValidateRows(rows: Rows) returns (stored: seq<PlayerClaim>, ghost keys: seq<string>, problem: Option<BuildError>)
    ensures problem.None? <==> AllAcceptable(rows) && IdsDistinct(rows)
    ensures problem.None? ==> ListsRows(keys, rows, stored)
    ensures problem.Some? ==> Justified(problem.value, rows)
  {
    stored, keys := [], [];
    var ids: set<string> := {};
    var remaining := rows.Keys;
    while remaining != {}
      invariant Visiting(rows, keys, stored, ids, remaining)
    {
      hide Acceptable, Stored, IdsDistinct;
      var key :| key in remaining;
      assert key in rows;
      var r := CloneAndValidateClaim(key, rows[key]);
      if r.Failure? {
        return stored, keys, Some(InvalidClaim(r.error));
      }
      if r.value.id in ids {
        RepeatedId(rows, keys, stored, ids, remaining, key);
        return stored, keys, Some(DuplicateId(r.value.id));
      }
      VisitingNext(rows, keys, stored, ids, remaining, key);
      ids := ids + {r.value.id};
      stored := stored + [r.value];
      keys := keys + [key];
      remaining := remaining - {key};
    }
    VisitingDone(rows, keys, stored, ids);
    problem := None;
  }

  lemma StoredId(key: string, source: PlayerClaim)
    ensures Stored(key, source).id == EffectiveId(key, source)
    ensures FiniteBounds(Stored(key, source)) <==> FiniteBounds(source)
    ensures FiniteBounds(source) ==> CellsOf(Stored(key, source)) == CellsOf(source)
  {
  }

  /** The second loop: indexes the copies one after the other, stopping at the first misfit. */
  method IndexAll(conversion: Float32 -> int32, stored: seq<PlayerClaim>)
    returns (cells: CellMap, cellCount: int, problem: Option<BuildError>, ghost misfit: nat)
    requires AllFinite(stored)
    ensures problem.None? ==> forall i :: 0 <= i < |stored| ==> Indexable(stored[i])
    ensures problem.None? ==> Accounted(cells, cellCount) && Indexes(cells, stored) && Entries(cells) == Area(stored)
    ensures problem.Some? ==>
              misfit < |stored| && !Indexable(stored[misfit])
              && problem.value == Misfit(stored[misfit])
  {
    hide Indexable, Entries, Indexes, Accounted, IndexedOneMore, CellsOf;
    cells, cellCount, problem, misfit := map[], 0, None, 0;
    EmptyIndex();
    assert stored[..0] == [];
    for n := 0 to |stored|
      invariant Accounted(cells, cellCount)
      invariant Indexes(cells, stored[..n])
      invariant Entries(cells) == Area(stored[..n])
      invariant forall i :: 0 <= i < n ==> Indexable(stored[i])
    {
      ghost var before := cells;
      cells, cellCount, problem := IndexClaim(conversion, cells, cellCount, stored[n]);
      if problem.Some? {
        misfit := n;
        return;
      }
      IndexesNext(before, cells, stored, n);
      assert stored[..n + 1][..n] == stored[..n];
    }
    assert stored[..|stored|] == stored;
    problem := None;
  }

  function Misfit(cl: PlayerClaim): BuildError
    requires FiniteBounds(cl)
  {
    if CellsOf(cl).InRange() then TooManyCells(cl.id) else BoundsExceedIndex(cl.id)
  }

  /** Validates, copies and indexes a payload before anything of it is published. */
  method BuildSnapshot(conversion: Float32 -> int32, rows: Rows, generation: nat, now: Time)
    returns (r: Result<Snapshot, BuildError>)
    ensures r.Success? <==> Buildable(rows)
    ensures r.Success? ==> BuiltFrom(r.value, rows)
    ensures r.Success? ==> r.value.generation == generation && r.value.generatedAt == now && r.value.fetchedAt == now
    ensures r.Failure? ==> Justified(r.error, rows)
  {
    hide Indexable, Entries, Indexes, Acceptable, IdsDistinct, ListsRows, Justified, AllAcceptable, Area, Misfit, Occupied;
    var stored, keys, problem := ValidateRows(rows);
    if problem.Some? {
      return Failure(problem.value);
    }
    StoredAreFinite(keys, rows, stored);
    var cells, cellCount, trouble, misfit := IndexAll(conversion, stored);
    RowsAreIndexable(keys, rows, stored);
    if trouble.Some? {
      Blame(keys, rows, stored, misfit);
      return Failure(trouble.value);
    }
    return Success(Snapshot(
      POLICY_VERSION, SCHEMA_VERSION, generation, now, now, |rows|, cellCount, stored, cells));
  }

  lemma EmptyIndex()
    ensures Indexes(map[], []) && Accounted(map[], 0) && Entries(map[]) == Area([])
  {
    assert Occupied(map[]) == {};
  }

  lemma StoredAreFinite(keys: seq<string>, rows: Rows, stored: seq<PlayerClaim>)
    requires AllAcceptable(rows) && ListsRows(keys, rows, stored)
    ensures AllFinite(stored)
  {
    forall i | 0 <= i < |stored| ensures FiniteBounds(stored[i]) {
      assert keys[i] in keys;
    }
  }

  lemma IndexesNext(before: CellMap, after: CellMap, claims: seq<PlayerClaim>, n: nat)
    requires n < |claims| && Indexes(before, claims[..n]) && IndexedOneMore(before, after, claims[n])
    ensures Indexes(after, claims[..n + 1])
  {
    forall d, k ensures Bucket(after, d, k) == Filter(claims[..n + 1], InBucket(d, k)) {
      FilterNext(claims, n, InBucket(d, k));
    }
  }

  lemma Blame(keys: seq<string>, rows: Rows, stored: seq<PlayerClaim>, n: nat)
    requires n < |stored| && ListsRows(keys, rows, stored)
    requires FiniteBounds(stored[n]) && !Indexable(stored[n])
    ensures !AllIndexable(rows)
    ensures Justified(Misfit(stored[n]), rows)
  {
    var key := keys[n];
    assert key in keys && stored[n] == Stored(key, rows[key]);
    StoredId(key, rows[key]);
  }

  lemma RowsAreIndexable(keys: seq<string>, rows: Rows, stored: seq<PlayerClaim>)
    requires ListsRows(keys, rows, stored)
    ensures AllIndexable(rows) <==> forall i :: 0 <= i < |stored| ==> Indexable(stored[i])
  {
    if forall i :: 0 <= i < |stored| ==> Indexable(stored[i]) {
      forall key | key in rows ensures Indexable(Stored(key, rows[key])) {
        var i :| 0 <= i < |keys| && keys[i] == key;
        assert Indexable(stored[i]);
      }
    }
    if AllIndexable(rows) {
      forall i | 0 <= i < |stored| ensures Indexable(stored[i]) {
        assert keys[i] in keys;
      }
    }
  }
}
