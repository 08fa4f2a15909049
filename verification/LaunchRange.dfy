/** The range check of a partial launch: tiles first + (i/span)*period + i mod span. */
module LaunchRange {
  import opened Numbers
  import opened NumberTheory

  /** uint64_t. Every operation below is checked to stay in range. */
  newtype U64 = x: int | 0 <= x < 0x1_0000_0000_0000_0000

  datatype Range = Range(first: U64, count: U64, span: U64, period: U64)

  function Tile(r: Range, i: nat): int
    requires r.span > 0
  {
    r.first as int + (i / r.span as int) * r.period as int + i % r.span as int
  }

  /** Tile number m of the q-th stretch. */
  lemma TileMeaning(r: Range, q: nat, m: nat)
    requires r.span > 0 && m < r.span as int
    ensures q * r.span as int >= 0
    ensures Tile(r, q * r.span as int + m) == r.first as int + q * r.period as int + m
  {
    MulSign(q, r.span as int);
    Commute(q, 1, r.span as int);
    ModUnique(q * r.span as int + m, r.span as int, q, m);
  }

  /** What the arguments must satisfy before any tile is looked at. */
  predicate WellFormed(r: Range) {
    r.count > 0 && r.span > 0 && r.period >= r.span
  }

  ghost predicate AllTilesBelow(r: Range, full: int)
    requires r.span > 0
  {
    forall i: nat | i < r.count as int :: Tile(r, i) < full
  }

  /** Consecutive tiles ascend. */
  lemma TileStep(r: Range, i: nat)
    requires WellFormed(r)
    ensures Tile(r, i) < Tile(r, i + 1)
  {
    var s, p := r.span as int, r.period as int;
    var q, m := i / s, i % s;
    assert i == s * q + m;
    if m + 1 < s {
      ModUnique(i + 1, s, q, m + 1);
    } else {
      assert s * (q + 1) == s * q + s;
      ModUnique(i + 1, s, q + 1, 0);
      assert (q + 1) * p == q * p + p;
    }
  }

  lemma {:induction false} TilesAscend(r: Range, i: nat, j: nat)
    requires WellFormed(r) && i <= j
    ensures Tile(r, i) <= Tile(r, j) && (i < j ==> Tile(r, i) < Tile(r, j))
    decreases j
  {
    if i < j {
      TilesAscend(r, i, j - 1);
      TileStep(r, j - 1);
    }
  }

  /** Accepted ranges name pairwise distinct tiles. */
  lemma TilesDistinct(r: Range)
    requires WellFormed(r)
    ensures forall i: nat, j: nat | i < j :: Tile(r, i) != Tile(r, j)
  {
    forall i: nat, j: nat | i < j
      ensures Tile(r, i) != Tile(r, j)
    {
      TilesAscend(r, i, j);
    }
  }

  /** A range is in bounds exactly when its last tile is. */
  lemma LastTileDecides(r: Range, full: int)
    requires WellFormed(r)
    ensures AllTilesBelow(r, full) <==> Tile(r, r.count as int - 1) < full
  {
    forall i: nat | i < r.count as int
      ensures Tile(r, i) <= Tile(r, r.count as int - 1)
    {
      TilesAscend(r, i, r.count as int - 1);
    }
  }

  lemma QuotientBound(q: int, p: int, room: int)
    requires p > 0 && q >= 0 && room >= 0
    ensures q > room / p <==> q * p > room
  {
    var d := room / p;
    assert room == p * d + room % p;
    MulBounds(p, q - d);
    MulBounds(p, d - q);
    assert p * (q - d) == q * p - p * d;
    assert p * (d - q) == p * d - q * p;
  }

  /** The full range names every tile once, in order, and is in bounds. */
  lemma FullRangeFits(r: Range, full: U64)
    requires full > 0 && r.span > 0
    ensures r == Range(0, full, full, full) ==>
              WellFormed(r) && AllTilesBelow(r, full as int) && forall i: nat | i < full as int :: Tile(r, i) == i
  {
    if r == Range(0, full, full, full) {
      forall i: nat | i < full as int
        ensures Tile(r, i) == i
      {
        ModUnique(i, full as int, 0, i);
      }
    }
  }

  lemma TileAtLeastFirst(r: Range, i: nat)
    requires WellFormed(r)
    ensures Tile(r, i) >= r.first as int
  {
    TilesAscend(r, 0, i);
    ModUnique(0, r.span as int, 0, 0);
  }

  /** The bounds part of the check: it decides whether the last tile fits. */
  method LastTileFits(r: Range, full: U64) returns (fits: bool)
    requires WellFormed(r)
    ensures fits <==> Tile(r, r.count as int - 1) < full as int
  {
    TileAtLeastFirst(r, r.count as int - 1);
    if r.first >= full {
      return false;
    }
    var last := r.count - 1;
    var quotient, remainder := last / r.span, last % r.span;
    assert Tile(r, last as int) == r.first as int + quotient as int * r.period as int + remainder as int;
    fits := RoomFor(quotient, remainder, r.period, full - 1 - r.first);
  }

  /** quotient * period + remainder <= room, without overflow. */
  method RoomFor(quotient: U64, remainder: U64, period: U64, room: U64) returns (fits: bool)
    requires period > 0
    ensures fits <==> quotient as int * period as int + remainder as int <= room as int
  {
    QuotientBound(quotient as int, period as int, room as int);
    if quotient > room / period {
      return false;
    }
    return remainder <= room - quotient * period;
  }

  // ------------------------------------------------------------ the full count

  /** A group of one module: it has 2^shift columns a transform, handled `columns` at a time. */
  datatype GroupShape = GroupShape(shift: nat, columns: U64, partial: bool)

  /** (batch << shift) / columns in 64 bits: the shift drops the high bits. */
  function FullCount(batch: U64, g: GroupShape): U64
    requires g.columns > 0
  {
    Truncate(batch as int * Pow2(g.shift)) / g.columns
  }

  function Truncate(x: int): (r: U64)
    ensures r as int == x % WORD64
  {
    (x % WORD64) as U64
  }

  function TrueCount(batch: U64, g: GroupShape): int
    requires g.columns > 0
  {
    batch as int * Pow2(g.shift) / g.columns as int
  }

  /** The computed count never exceeds the true number of tiles, and it is that number exactly when
      the shift fits the word. */
  lemma FullCountExact(batch: U64, g: GroupShape)
    requires g.columns > 0
    ensures FullCount(batch, g) as int <= TrueCount(batch, g)
    ensures FullCount(batch, g) as int == TrueCount(batch, g) <==> batch as int * Pow2(g.shift) < WORD64
  {
    var b: int, p: int := batch as int, Pow2(g.shift);
    MulSign(b, p);
    CountOfWord(b * p, g.columns as int);
  }

  lemma MulSign(a: int, b: int)
    requires a >= 0 && b >= 0
    ensures a * b >= 0
  {
  }

  lemma CountOfWord(x: int, c: int)
    requires x >= 0 && 0 < c < WORD64
    ensures x < WORD64 ==> (x % WORD64) / c == x / c
    ensures x >= WORD64 ==> (x % WORD64) / c < x / c
  {
    var q, r := x / WORD64, x % WORD64;
    assert x == WORD64 * q + r;
    if x < WORD64 {
      ModUnique(x, WORD64, 0, x);
    } else {
      var d := r / c;
      assert r == c * d + r % c;
      assert (d + 1) * c == c * d + c;
      QuotientBound(d + 1, c, x);
    }
  }

  /** The check of the generated module. For a group that admits partial launches it accepts
      exactly the well-formed ranges all of whose tiles lie below the full count; for any
      other group exactly the full range; either way only with usable buffers and strides.
      Apart from the shift that gives the count no operation wraps. */
  method AcceptRange(r: Range, batch: U64, g: GroupShape, usable: bool) returns (ok: bool)
    requires g.columns > 0
    ensures var full := batch as int * Pow2(g.shift) % WORD64 / g.columns as int;
      && (g.partial ==> (ok <==> usable && r.count > 0 && r.span > 0 && r.period >= r.span
                                 && forall i: nat | i < r.count as int :: Tile(r, i) < full))
      && (!g.partial ==> (ok <==> usable && full > 0 && r.first == 0
                                  && r.count as int == full && r.span as int == full && r.period as int == full))
    ensures ok ==> AllTilesBelow(r, TrueCount(batch, g))
    ensures batch as int * Pow2(g.shift) < WORD64 && g.partial ==>
      (ok <==> usable && WellFormed(r) && AllTilesBelow(r, TrueCount(batch, g)))
  {
    if !usable || batch == 0 || r.count == 0 || r.span == 0 || r.period < r.span {
      NoTileBelowZero(r);
      NothingToCount(g);
      return false;
    }
    FullCountExact(batch, g);
    var full := FullCount(batch, g);
    var fits := LastTileFits(r, full);
    LastTileDecides(r, full as int);
    LastTileDecides(r, TrueCount(batch, g));
    if full > 0 {
      FullRangeFits(r, full);
    }
    if !fits {
      return false;
    }
    if !g.partial && (r.first != 0 || r.count != full || r.span != full || r.period != full) {
      return false;
    }
    return true;
  }

  lemma NoTileBelowZero(r: Range)
    ensures WellFormed(r) ==> !AllTilesBelow(r, 0)
  {
    if WellFormed(r) {
      TileAtLeastFirst(r, 0);
    }
  }

  lemma NothingToCount(g: GroupShape)
    requires g.columns > 0
    ensures FullCount(0, g) == 0 && TrueCount(0, g) == 0
  {
    assert 0 * Pow2(g.shift) == 0;
  }
}
