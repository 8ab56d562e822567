/** How large and how many the tiles are, and how far rounding moves a corner. */
module TileShape {
  import opened TileGrid

  /** Half of the last of seven decimals. */
  const HALF: real := 0.00000005

  // ---------------------------------------------------------------------------------------
  // Rounding
  // ---------------------------------------------------------------------------------------

  lemma RoundHalfAwayError(x: real) returns (k: int)
    ensures x - 0.5 <= RoundHalfAway(x) <= x + 0.5
    ensures RoundHalfAway(x) == k as real
  {
    k := if x >= 0.0 then (x + 0.5).Floor else -(-x + 0.5).Floor;
  }

  lemma HalvesGoAway(n: nat)
    ensures RoundHalfAway(n as real + 0.5) == (n + 1) as real
    ensures RoundHalfAway(-(n as real + 0.5)) == -((n + 1) as real)
  {
    assert ((n + 1) as real).Floor == n + 1;
    assert (n as real + 0.5) + 0.5 == (n + 1) as real;
  }

  /** Rounding gives a multiple of the seventh decimal and moves a number by at most half of it. */
  lemma RoundError(a: real) returns (k: int)
    ensures a - HALF <= Round(a) <= a + HALF
    ensures Round(a) == k as real / 10000000.0
  {
    k := RoundHalfAwayError(a * 10000000.0);
  }

  // ---------------------------------------------------------------------------------------
  // One direction
  // ---------------------------------------------------------------------------------------

  /** Two cut points next to each other are at most a step and a rounding apart, and, except for the
      last two, at least a step less a rounding. */
  lemma MarkGap(lo: real, hi: real, unit: real, r: seq<real>, i: nat)
    requires AreMarks(Round, lo, hi, unit, r) && i + 1 < |r|
    ensures r[i + 1] - r[i] <= unit + 2.0 * HALF
    ensures Position(lo, unit, i + 1) <= hi ==> unit - 2.0 * HALF <= r[i + 1] - r[i]
  {
    PositionStep(lo, unit, i);
    var k := RoundError(Position(lo, unit, i));
    k := RoundError(Min(hi, Position(lo, unit, i + 1)));
  }

  // ---------------------------------------------------------------------------------------
  // The tiles
  // ---------------------------------------------------------------------------------------

  lemma {:induction false} RectInColumn(x0: real, x1: real, s: seq<real>, j: nat, k: nat)
      returns (q: nat)
    requires j < |s| && k < |Column(x0, x1, s, j)|
    ensures q < j && Column(x0, x1, s, j)[k] == Rect(x0, s[q], x1, s[q + 1])
  {
    if k < |Column(x0, x1, s, j - 1)| {
      q := RectInColumn(x0, x1, s, j - 1, k);
    } else {
      q := j - 1;
    }
  }

  /** The edges of every tile are cut points next to each other. */
  lemma {:induction false} RectInGrid(r: seq<real>, s: seq<real>, i: nat, k: nat)
      returns (p: nat, q: nat)
    requires i < |r| && s != [] && k < |Grid(r, s, i)|
    ensures p < i && q + 1 < |s|
    ensures Grid(r, s, i)[k] == Rect(r[p], s[q], r[p + 1], s[q + 1])
  {
    var before := Grid(r, s, i - 1);
    if k < |before| {
      p, q := RectInGrid(r, s, i - 1, k);
    } else {
      p := i - 1;
      q := RectInColumn(r[i - 1], r[i], s, |s| - 1, k - |before|);
    }
  }

  /** No tile is wider or higher than the longer edge of the box divided by the cluster size, up to
      the rounding of its two corners. */
  lemma TilesAreNarrow(b: Box, clusterSize: nat, k: nat)
    requires ProperBox(b) && 0 < clusterSize && k < |TilesOf(b, clusterSize)|
    ensures var t := TilesOf(b, clusterSize)[k];
      var longer := Max(b.maxX - b.minX, b.maxY - b.minY);
      && t.x1 - t.x0 <= longer / (clusterSize as real) + 2.0 * HALF
      && t.y1 - t.y0 <= longer / (clusterSize as real) + 2.0 * HALF
  {
    var unit := Unit(b, clusterSize);
    var r, s := MarksX(b, clusterSize), MarksY(b, clusterSize);
    UnitIsEnough(b, clusterSize);
    MarksAreMarks(Round, b.minX, b.maxX, unit, clusterSize);
    MarksAreMarks(Round, b.minY, b.maxY, unit, clusterSize);
    var p, q := RectInGrid(r, s, |r| - 1, k);
    MarkGap(b.minX, b.maxX, unit, r, p);
    MarkGap(b.minY, b.maxY, unit, s, q);
  }

  ghost predicate Increasing(r: seq<real>) {
    forall i | 0 <= i < |r| - 1 :: r[i] < r[i + 1]
  }

  lemma {:induction false} FullColumn(x0: real, x1: real, s: seq<real>, j: nat)
    requires j < |s| && x0 != x1 && Increasing(s)
    ensures |Column(x0, x1, s, j)| == j
  {
    if j > 0 { FullColumn(x0, x1, s, j - 1); }
  }

  lemma {:induction false} FullGrid(r: seq<real>, s: seq<real>, i: nat)
    requires i < |r| && s != [] && Increasing(r) && Increasing(s)
    ensures |Grid(r, s, i)| == i * (|s| - 1)
  {
    if i > 0 {
      FullGrid(r, s, i - 1);
      FullColumn(r[i - 1], r[i], s, |s| - 1);
      assert i * (|s| - 1) == (i - 1) * (|s| - 1) + (|s| - 1);
    }
  }

  /** A stretch of exactly `n` steps, each longer than a rounding, is cut into `n` parts. */
  lemma FullMarks(lo: real, hi: real, unit: real, n: nat)
    requires 2.0 * HALF < unit && hi == Position(lo, unit, n)
    ensures |Marks(Round, lo, hi, unit, n)| == n + 1
    ensures Increasing(Marks(Round, lo, hi, unit, n))
  {
    var r := Marks(Round, lo, hi, unit, n);
    if |r| - 1 < n {
      PositionMonotone(lo, unit, |r| - 1, n - 1);
      PositionStep(lo, unit, n - 1);
    }
    MarksAreMarks(Round, lo, hi, unit, n);
    forall i | 0 <= i < |r| - 1 ensures r[i] < r[i + 1] {
      PositionMonotone(lo, unit, i + 1, n);
      MarkGap(lo, hi, unit, r, i);
    }
  }

  /** A square box whose tiles are larger than a rounding is cut into exactly clusterSize squared. */
  lemma SquareIsFull(b: Box, clusterSize: nat)
    requires ProperBox(b) && 0 < clusterSize && b.maxX - b.minX == b.maxY - b.minY
    requires 2.0 * HALF < Unit(b, clusterSize)
    ensures |TilesOf(b, clusterSize)| == clusterSize * clusterSize
  {
    var unit, c := Unit(b, clusterSize), clusterSize as real;
    assert c * ((b.maxX - b.minX) / c) == b.maxX - b.minX;
    FullMarks(b.minX, b.maxX, unit, clusterSize);
    FullMarks(b.minY, b.maxY, unit, clusterSize);
    FullGrid(MarksX(b, clusterSize), MarksY(b, clusterSize), clusterSize);
  }
}
