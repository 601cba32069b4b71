/**
 The machine numbers the proxy computes with: 32 and 64 bit integers, and float32
 coordinates with their special values and their rounding of large integers.
 */
module Numbers {

  newtype int8 = x: int | -0x80 <= x <= 0x7F
  newtype int32 = x: int | -0x8000_0000 <= x <= 0x7FFF_FFFF
  newtype int64 = x: int | -0x8000_0000_0000_0000 <= x <= 0x7FFF_FFFF_FFFF_FFFF

  predicate FitsInt32(n: int) {
    -0x8000_0000 <= n <= 0x7FFF_FFFF
  }

  /** Two's complement wrap-around of an integer to 32 bits. */
  function Wrap32(n: int): (r: int)
    ensures FitsInt32(r)
  {
    (n + 0x8000_0000) % 0x1_0000_0000 - 0x8000_0000
  }

  /** The two integers are the same 32 bits. */
  predicate SameBits(n: int, v: int) {
    (n - v) % 0x1_0000_0000 == 0
  }

  /** A float32 value. Every finite float32 is a real; the model allows every real. */
  datatype Float32 = Finite(value: real) | Infinite(negative: bool) | NaN

  /** IEEE 754 `<=`: false as soon as one side is NaN. */
  predicate AtMost(a: Float32, b: Float32) {
    match (a, b)
    case (NaN, _) => false
    case (_, NaN) => false
    case (Infinite(negative), _) => negative || b == Infinite(false)
    case (_, Infinite(negative)) => !negative
    case (Finite(x), Finite(y)) => x <= y
  }

  /** Go's built-in `min` on floats: NaN as soon as one argument is NaN. */
  function Min(a: Float32, b: Float32): Float32 {
    if a.NaN? || b.NaN? then NaN else if AtMost(a, b) then a else b
  }

  /** Go's built-in `max` on floats: NaN as soon as one argument is NaN. */
  function Max(a: Float32, b: Float32): Float32 {
    if a.NaN? || b.NaN? then NaN else if AtMost(a, b) then b else a
  }

  /** `v` lies between `a` and `b`, ends included, whichever of them is the larger. */
  predicate Between(a: real, b: real, v: real) {
    a <= v <= b || b <= v <= a
  }

  // ---------------------------------------------------------------------------
  // Conversion of a block coordinate to float32: round to nearest, ties to even
  // ---------------------------------------------------------------------------

  /** Distance between neighbouring float32 values around magnitude `m`. */
  function Spacing(m: nat): (s: nat)
    ensures s >= 1
  {
    if m < 0x100_0000 then 1 else 2 * Spacing(m / 2)
  }

  /** The float32 nearest to the magnitude `m`; a tie goes to the even mantissa. */
  function RoundMagnitude(m: nat): int {
    var s := Spacing(m);
    var below := m / s * s;
    var rest := m % s;
    if 2 * rest < s || (2 * rest == s && m / s % 2 == 0) then below else below + s
  }

  /** `float32(n)` for an integer `n`. */
  function RoundToFloat(n: int): int {
    if n >= 0 then RoundMagnitude(n) else -RoundMagnitude(-n)
  }

  function ToFloat32(n: int): Float32 {
    Finite(RoundToFloat(n) as real)
  }

  lemma SpacingSmall(m: nat)
    requires m <= 0x1000_0000
    ensures m < 0x100_0000 ==> Spacing(m) == 1
    ensures 0x100_0000 <= m < 0x200_0000 ==> Spacing(m) == 2
    ensures 0x200_0000 <= m < 0x400_0000 ==> Spacing(m) == 4
    ensures 0x400_0000 <= m < 0x800_0000 ==> Spacing(m) == 8
    ensures 0x800_0000 <= m < 0x1000_0000 ==> Spacing(m) == 16
    ensures m == 0x1000_0000 ==> Spacing(m) == 32
  {
    if m >= 0x100_0000 {
      SpacingSmall(m / 2);
    }
  }

  /** No int32 magnitude is moved by more than 128. */
  lemma SpacingBound(m: nat)
    requires m <= 0x8000_0000
    ensures Spacing(m) <= 256
    ensures m < 0x800_0000 ==> Spacing(m) <= 8
  {
    SpacingIn(m, 7);
    if m < 0x800_0000 {
      SpacingIn(m, 3);
    }
  }

  function Pow2(k: nat): (r: nat)
    ensures r >= 1
  {
    if k == 0 then 1 else 2 * Pow2(k - 1)
  }

  lemma SpacingIn(m: nat, k: nat)
    requires m <= 0x100_0000 * Pow2(k)
    ensures Spacing(m) <= 2 * Pow2(k)
    ensures m < 0x100_0000 * Pow2(k) ==> Spacing(m) <= Pow2(k)
  {
    if k > 0 && m >= 0x100_0000 {
      SpacingIn(m / 2, k - 1);
    }
  }

  lemma RoundIsNear(n: int)
    requires -0x8000_0000 <= n <= 0x8000_0000
    ensures -256 <= RoundToFloat(n) - n <= 256
  {
    MagnitudeIsNear(if n >= 0 then n else -n);
    hide RoundMagnitude;
  }

  lemma MagnitudeIsNear(m: nat)
    requires m <= 0x8000_0000
    ensures m - 256 <= RoundMagnitude(m) <= m + 256
  {
    hide Spacing, RoundMagnitude;
    var s := Spacing(m);
    var q, r := m / s, m % s;
    SpacingBound(m);
    QuotientAndRest(m, s);
    RoundBetween(m, s, q, r);
  }

  lemma QuotientAndRest(m: nat, s: nat)
    requires s > 0
    ensures m == m / s * s + m % s && m % s < s
  {
  }

  /** Rounding `q * s + r` between its float32 neighbours `q * s` and `q * s + s`. */
  lemma RoundBetween(m: nat, s: nat, q: nat, r: nat)
    requires Spacing(m) == s && m == q * s + r && r < s
    ensures RoundMagnitude(m) == if 2 * r < s || (2 * r == s && q % 2 == 0) then q * s else q * s + s
  {
    DivisionIsUnique(m, s, q, r);
  }

  lemma DivisionIsUnique(m: nat, s: nat, q: nat, r: nat)
    requires m == q * s + r && r < s
    ensures m / s == q && m % s == r
  {
    var d := m / s - q;
    assert d * s == r - m % s;
  }

  /** Integers up to 2^24 in magnitude are float32 values: the conversion is exact. */
  lemma {:induction false} RoundExact(n: int)
    requires -0x100_0000 <= n <= 0x100_0000
    ensures RoundToFloat(n) == n
  {
    var m := if n >= 0 then n else -n;
    SpacingSmall(m);
    if m < 0x100_0000 {
      RoundBetween(m, 1, m, 0);
    }
  }

  /** A magnitude with 24 significant bits: every integer float32 is one, up to sign. */
  ghost predicate Representable(m: nat, k: nat, e: nat) {
    m == k * Pow2(e) && k <= 0x100_0000
  }

  lemma Pow2Splits(f: nat, e: nat)
    requires f <= e
    ensures Pow2(e) == Pow2(f) * Pow2(e - f)
  {
    if f < e {
      Pow2Splits(f, e - 1);
    }
  }

  /** The spacing is a power of two that leaves 24 significant bits. */
  lemma {:induction false} SpacingIsPower(m: nat) returns (e: nat)
    ensures Spacing(m) == Pow2(e) && m < 0x100_0000 * Pow2(e)
    ensures e > 0 ==> m >= 0x80_0000 * Pow2(e)
  {
    if m < 0x100_0000 {
      e := 0;
    } else {
      var d := SpacingIsPower(m / 2);
      e := d + 1;
    }
  }

  function Distance(a: int, b: int): nat {
    if a <= b then b - a else a - b
  }

  lemma ProductRises(a: nat, b: nat, x: nat)
    requires a <= b
    ensures a * x <= b * x
  {
    assert b * x == a * x + (b - a) * x;
  }

  lemma Pow2Rises(f: nat, e: nat)
    requires f <= e
    ensures Pow2(f) <= Pow2(e)
  {
    if f < e {
      Pow2Rises(f, e - 1);
    }
  }

  /** On a finer grid, 24 bits end below the range. */
  lemma FinerIsBelow(k: nat, f: nat, q: nat, e: nat)
    requires f < e && k <= 0x100_0000 && q >= 0x80_0000
    ensures k * Pow2(f) <= q * Pow2(e)
  {
    ProductRises(k, 0x100_0000, Pow2(f));
    Pow2Rises(f, e - 1);
    ProductRises(0x80_0000, q, Pow2(e));
    assert Pow2(e) == 2 * Pow2(e - 1);
  }

  lemma Regroup(k: nat, s: nat, t: nat)
    ensures k * (s * t) == (k * t) * s
  {
  }

  lemma MultipleIsFar(q: nat, r: nat, n: nat, s: nat)
    requires r < s
    ensures Distance(q * s + r, n * s) >= r || Distance(q * s + r, n * s) >= s - r
  {
    if n <= q {
      ProductRises(n, q, s);
    } else {
      ProductRises(q + 1, n, s);
      assert (q + 1) * s == q * s + s;
    }
  }

  /** No value with 24 significant bits is nearer than both neighbours on the grid. */
  lemma CandidateIsFar(m: nat, e: nat, q: nat, r: nat, c: nat, k: nat, f: nat)
    requires m == q * Pow2(e) + r && r < Pow2(e) && (e > 0 ==> q >= 0x80_0000)
    requires Representable(c, k, f)
    ensures Distance(m, c) >= r || Distance(m, c) >= Pow2(e) - r
  {
    hide Pow2;
    if f < e {
      FinerIsBelow(k, f, q, e);
    } else {
      Pow2Splits(e, f);
      Regroup(k, Pow2(e), Pow2(f - e));
      MultipleIsFar(q, r, k * Pow2(f - e), Pow2(e));
    }
  }

  lemma QuotientIn(m: nat, q: nat, r: nat, s: nat, lo: nat, hi: nat)
    requires m == q * s + r && r < s && lo * s <= m < hi * s
    ensures lo <= q < hi
  {
    if q >= hi {
      ProductRises(hi, q, s);
    }
    if q < lo {
      ProductRises(q + 1, lo, s);
    }
  }

  /** Rounding a magnitude that is split at its spacing. */
  lemma NearestAt(m: nat, e: nat, q: nat, r: nat, c: nat, k: nat, f: nat) returns (p: nat)
    requires m == q * Pow2(e) + r && r < Pow2(e) == Spacing(m) && q < 0x100_0000 && (e > 0 ==> q >= 0x80_0000)
    requires Representable(c, k, f)
    ensures RoundMagnitude(m) == p * Pow2(e) && p <= 0x100_0000
    ensures Distance(m, RoundMagnitude(m)) <= Distance(m, c)
    ensures 2 * Distance(m, RoundMagnitude(m)) == Pow2(e) ==> p % 2 == 0
  {
    hide RoundMagnitude, Spacing, Pow2, Representable;
    RoundBetween(m, Pow2(e), q, r);
    CandidateIsFar(m, e, q, r, c, k, f);
    assert (q + 1) * Pow2(e) == q * Pow2(e) + Pow2(e);
    p := if 2 * r < Pow2(e) || (2 * r == Pow2(e) && q % 2 == 0) then q else q + 1;
  }

  /**
   Rounding gives a value with 24 significant bits, none of which is nearer; when two are
   equally near, it is an even multiple of the larger spacing.
   */
  lemma RoundIsNearest(m: nat, c: nat, k: nat, f: nat) returns (p: nat, e: nat)
    requires Representable(c, k, f)
    ensures RoundMagnitude(m) == p * Pow2(e) && p <= 0x100_0000
    ensures Distance(m, RoundMagnitude(m)) <= Distance(m, c)
    ensures 2 * Distance(m, RoundMagnitude(m)) == Pow2(e) ==> p % 2 == 0
  {
    hide RoundMagnitude, Spacing, Pow2, Representable;
    e := SpacingIsPower(m);
    QuotientAndRest(m, Pow2(e));
    QuotientIn(m, m / Pow2(e), m % Pow2(e), Pow2(e), if e > 0 then 0x80_0000 else 0, 0x100_0000);
    p := NearestAt(m, e, m / Pow2(e), m % Pow2(e), c, k, f);
  }

  /** From 2^24 up, the last column of a chunk rounds into the next 16-block cell. */
  lemma {:induction false} LastColumnRoundsAway(j: nat)
    requires 0x10_0000 <= j < 0x100_0000
    ensures RoundMagnitude(16 * j) == 16 * j
    ensures RoundMagnitude(16 * j + 15) == 16 * j + 16
  {
    SpacingSmall(16 * j);
    SpacingSmall(16 * j + 15);
    if j < 0x20_0000 {
      RoundBetween(16 * j, 2, 8 * j, 0);
      RoundBetween(16 * j + 15, 2, 8 * j + 7, 1);
    } else if j < 0x40_0000 {
      RoundBetween(16 * j, 4, 4 * j, 0);
      RoundBetween(16 * j + 15, 4, 4 * j + 3, 3);
    } else if j < 0x80_0000 {
      RoundBetween(16 * j, 8, 2 * j, 0);
      RoundBetween(16 * j + 15, 8, 2 * j + 1, 7);
    } else {
      RoundBetween(16 * j, 16, j, 0);
      RoundBetween(16 * j + 15, 16, j, 15);
    }
  }

  /** A magnitude one above a multiple of 16 rounds back down to it. */
  lemma {:induction false} FirstAboveRoundsBack(j: nat)
    requires 0x10_0000 <= j < 0x100_0000
    ensures RoundMagnitude(16 * j + 1) == 16 * j
  {
    SpacingSmall(16 * j + 1);
    if j < 0x20_0000 {
      RoundBetween(16 * j + 1, 2, 8 * j, 1);
    } else if j < 0x40_0000 {
      RoundBetween(16 * j + 1, 4, 4 * j, 1);
    } else if j < 0x80_0000 {
      RoundBetween(16 * j + 1, 8, 2 * j, 1);
    } else {
      RoundBetween(16 * j + 1, 16, j, 1);
    }
  }

  /** The mirror image below -2^24: there the last column rounds away from its own corner. */
  lemma {:induction false} NearestColumnRoundsAway(j: nat)
    requires 0x10_0000 <= j < 0x100_0000
    ensures RoundMagnitude(16 * j + 16) == 16 * j + 16
    ensures RoundMagnitude(16 * j + 1) == 16 * j
  {
    FirstAboveRoundsBack(j);
    if j + 1 < 0x100_0000 {
      LastColumnRoundsAway(j + 1);
    } else {
      SpacingSmall(0x1000_0000);
      RoundBetween(0x1000_0000, 32, 0x80_0000, 0);
    }
  }

  // ---------------------------------------------------------------------------
  // From 2^28 up: neighbours are 32, 64 or 128 apart
  // ---------------------------------------------------------------------------

  predicate Coarse(s: nat) {
    s == 32 || s == 64 || s == 128
  }

  /** `b` is the corner magnitude of sixteen columns where neighbours are `s` apart, at rest `r` from the one below. */
  predicate CoarseCorner(b: nat, s: nat, q: nat, r: nat) {
    Coarse(s) && 0x80_0000 * s <= b < 0x100_0000 * s && b % 16 == 0 && b == q * s + r && r < s
  }

  lemma SpacingCoarse(m: nat, s: nat)
    requires Coarse(s) && 0x80_0000 * s <= m < 0x100_0000 * s
    ensures Spacing(m) == s
  {
    if s == 32 {
      SpacingSmall(m / 2);
    } else {
      SpacingCoarse(m / 2, s / 2);
    }
  }

  /** Where the columns of a coarse corner round to. */
  lemma CoarseRounds(b: nat, s: nat, q: nat, r: nat, k: nat)
    requires CoarseCorner(b, s, q, r) && k <= 16
    ensures RoundMagnitude(b + k) == if 2 * (r + k) < s || (2 * (r + k) == s && q % 2 == 0) then q * s else q * s + s
  {
    hide Spacing, RoundMagnitude;
    RestIsAligned(b, s, q, r);
    if r + k < s {
      SpacingCoarse(b + k, s);
      RoundBetween(b + k, s, q, r + k);
    } else {
      NextNeighbour(b + k, s, q + 1);
    }
  }

  lemma SixteenDivides(b: nat, x: nat, r: nat)
    requires b % 16 == 0 && b == 16 * x + r
    ensures r % 16 == 0
  {
  }

  /** The rest keeps a whole chunk's distance from the neighbour above, and from the middle. */
  lemma RestIsAligned(b: nat, s: nat, q: nat, r: nat)
    requires CoarseCorner(b, s, q, r)
    ensures r % 16 == 0 && r + 16 <= s
  {
    if s == 32 {
      SixteenDivides(b, 2 * q, r);
    } else if s == 64 {
      SixteenDivides(b, 4 * q, r);
    } else {
      SixteenDivides(b, 8 * q, r);
    }
  }

  /** A multiple of the spacing is itself a float32, also where the spacing doubles. */
  lemma NextNeighbour(n: nat, s: nat, p: nat)
    requires Coarse(s) && n == p * s && 0x80_0000 * s <= n <= 0x100_0000 * s
    ensures RoundMagnitude(n) == n
  {
    hide RoundMagnitude;
    if n < 0x100_0000 * s {
      SpacingCoarse(n, s);
      RoundBetween(n, s, p, 0);
    } else {
      SpacingDoubles(s);
      RoundBetween(n, 2 * s, 0x80_0000, 0);
    }
  }

  lemma SpacingDoubles(s: nat)
    requires Coarse(s)
    ensures Spacing(0x100_0000 * s) == 2 * s
  {
    SpacingCoarse(0x80_0000 * s, s);
  }
}
