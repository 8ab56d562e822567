/** The tiling loops of geo/split.go over exact arithmetic, with the rounding of the corners. */
module TileGrid {

  /** `math.Round`: to the nearest integer, halves away from zero. */
  function RoundHalfAway(x: real): real {
    if x >= 0.0 then (x + 0.5).Floor as real else -((-x + 0.5).Floor as real)
  }

  /** Seven decimals. */
  function Round(a: real): real {
    RoundHalfAway(a * 10000000.0) / 10000000.0
  }

  lemma FloorMonotone(x: real, y: real)
    requires x <= y
    ensures x.Floor <= y.Floor
  {
  }

  lemma RoundHalfAwayMonotone(x: real, y: real)
    requires x <= y
    ensures RoundHalfAway(x) <= RoundHalfAway(y)
  {
    if 0.0 <= x {
      FloorMonotone(x + 0.5, y + 0.5);
    } else if y < 0.0 {
      FloorMonotone(-y + 0.5, -x + 0.5);
    } else {
      FloorMonotone(0.5, -x + 0.5);
      FloorMonotone(0.5, y + 0.5);
    }
  }

  lemma RoundMonotone(a: real, b: real)
    requires a <= b
    ensures Round(a) <= Round(b)
  {
    RoundHalfAwayMonotone(a * 10000000.0, b * 10000000.0);
  }

  /** A rectangle, read as half-open: it has its left and lower edges. */
  datatype Rect = Rect(x0: real, y0: real, x1: real, y1: real)

  predicate Contains(r: Rect, x: real, y: real) {
    r.x0 <= x < r.x1 && r.y0 <= y < r.y1
  }

  function Min(a: real, b: real): real { if a < b then a else b }

  function Max(a: real, b: real): real { if a < b then b else a }

  // ---------------------------------------------------------------------------------------
  // One direction
  // ---------------------------------------------------------------------------------------

  /** The loop variable after `i` steps. */
  function Position(lo: real, unit: real, i: nat): real {
    lo + (i as real) * unit
  }

  lemma PositionStep(lo: real, unit: real, i: nat)
    ensures Position(lo, unit, i + 1) == Position(lo, unit, i) + unit
  {
    assert ((i + 1) as real) * unit == (i as real) * unit + unit;
  }

  lemma {:induction false} PositionMonotone(lo: real, unit: real, i: nat, j: nat)
    requires 0.0 <= unit && i <= j
    ensures Position(lo, unit, i) <= Position(lo, unit, j)
  {
    if i < j {
      PositionMonotone(lo, unit, i, j - 1);
      PositionStep(lo, unit, j - 1);
    }
  }

  /** How often a loop that steps by `unit` from `lo` runs before it reaches `hi`, given that
      `most` steps are enough. */
  function StepCount(lo: real, hi: real, unit: real, most: nat): (n: nat)
    requires 0.0 <= unit && hi <= Position(lo, unit, most)
    ensures n <= most && hi <= Position(lo, unit, n)
    ensures forall i: nat | i < n :: Position(lo, unit, i) < hi
  {
    if most == 0 || Position(lo, unit, most - 1) < hi then
      assert forall i: nat | i < most :: Position(lo, unit, i) < hi by {
        forall i: nat | i < most ensures Position(lo, unit, i) < hi {
          PositionMonotone(lo, unit, i, most - 1);
        }
      }
      most
    else StepCount(lo, hi, unit, most - 1)
  }

  /** The cut points, rounded by `round`: one per step, then the upper end. */
  function Marks(round: real -> real, lo: real, hi: real, unit: real, most: nat): (r: seq<real>)
    requires 0.0 <= unit && hi <= Position(lo, unit, most)
    ensures |r| == StepCount(lo, hi, unit, most) + 1
  {
    var n := StepCount(lo, hi, unit, most);
    seq(n + 1, i requires 0 <= i <= n =>
      if i < n then round(Position(lo, unit, i)) else round(hi))
  }

  ghost predicate Rising(r: seq<real>) {
    forall i, j | 0 <= i <= j < |r| :: r[i] <= r[j]
  }

  /** `r` holds, for every step of a loop from `lo` to `hi`, the two corners its body computes. */
  ghost predicate AreMarks(round: real -> real, lo: real, hi: real, unit: real, r: seq<real>) {
    && r != []
    && forall i | 0 <= i < |r| ::
         && (Position(lo, unit, i) < hi <==> i < |r| - 1)
         && (i < |r| - 1 ==> r[i] == round(Position(lo, unit, i)))
         && (0 < i ==> r[i] == round(Min(hi, Position(lo, unit, i))))
  }

  lemma MarksAreMarks(round: real -> real, lo: real, hi: real, unit: real, most: nat)
    requires 0.0 <= unit && hi <= Position(lo, unit, most)
    ensures AreMarks(round, lo, hi, unit, Marks(round, lo, hi, unit, most))
  {
  }

  lemma MarksRise(lo: real, hi: real, unit: real, most: nat)
    requires 0.0 <= unit && lo <= hi <= Position(lo, unit, most)
    ensures var r := Marks(Round, lo, hi, unit, most);
      Rising(r) && r[0] == Round(lo) && r[|r| - 1] == Round(hi)
  {
    var r, n := Marks(Round, lo, hi, unit, most), StepCount(lo, hi, unit, most);
    forall i, j | 0 <= i <= j < |r| ensures r[i] <= r[j] {
      PositionMonotone(lo, unit, i, j);
      if i < n { RoundMonotone(Position(lo, unit, i), if j < n then Position(lo, unit, j) else hi); }
    }
    assert Position(lo, unit, 0) == lo;
  }

  // ---------------------------------------------------------------------------------------
  // The grid
  // ---------------------------------------------------------------------------------------

  /** The kept rectangles of the first `j` rows of one column. */
  function Column(x0: real, x1: real, s: seq<real>, j: nat): seq<Rect>
    requires j < |s|
  {
    if j == 0 then []
    else Column(x0, x1, s, j - 1)
         + (if x0 == x1 || s[j - 1] == s[j] then [] else [Rect(x0, s[j - 1], x1, s[j])])
  }

  /** The kept rectangles of the first `i` columns. */
  function Grid(r: seq<real>, s: seq<real>, i: nat): seq<Rect>
    requires i < |r| && s != []
  {
    if i == 0 then []
    else Grid(r, s, i - 1) + Column(r[i - 1], r[i], s, |s| - 1)
  }

  datatype Box = Box(minX: real, minY: real, maxX: real, maxY: real)

  predicate ProperBox(b: Box) {
    b.minX <= b.maxX && b.minY <= b.maxY
  }

  function Unit(b: Box, clusterSize: nat): real
    requires 0 < clusterSize
  {
    Max(b.maxX - b.minX, b.maxY - b.minY) / (clusterSize as real)
  }

  lemma UnitIsEnough(b: Box, clusterSize: nat)
    requires ProperBox(b) && 0 < clusterSize
    ensures 0.0 <= Unit(b, clusterSize)
    ensures b.maxX <= Position(b.minX, Unit(b, clusterSize), clusterSize)
    ensures b.maxY <= Position(b.minY, Unit(b, clusterSize), clusterSize)
  {
    var longer, c := Max(b.maxX - b.minX, b.maxY - b.minY), clusterSize as real;
    assert c * (longer / c) == longer;
    assert 0.0 <= longer / c;
  }

  function MarksX(b: Box, clusterSize: nat): (r: seq<real>)
    requires ProperBox(b) && 0 < clusterSize
    ensures 0 < |r| <= clusterSize + 1
  {
    UnitIsEnough(b, clusterSize);
    Marks(Round, b.minX, b.maxX, Unit(b, clusterSize), clusterSize)
  }

  function MarksY(b: Box, clusterSize: nat): (r: seq<real>)
    requires ProperBox(b) && 0 < clusterSize
    ensures 0 < |r| <= clusterSize + 1
  {
    UnitIsEnough(b, clusterSize);
    Marks(Round, b.minY, b.maxY, Unit(b, clusterSize), clusterSize)
  }

  /** The rectangles that the tiling loops keep. */
  function TilesOf(b: Box, clusterSize: nat): seq<Rect>
    requires ProperBox(b) && 0 < clusterSize
  {
    var r := MarksX(b, clusterSize);
    Grid(r, MarksY(b, clusterSize), |r| - 1)
  }

  /** The inner loop of the tiling, at a column with rounded edges `x0` and `x1`. */
  method TileColumn(b: Box, unit: real, x0: real, x1: real, round: real -> real,
                    ghost s: seq<real>) returns (c: seq<Rect>)
    requires AreMarks(round, b.minY, b.maxY, unit, s)
    ensures c == Column(x0, x1, s, |s| - 1)
  {
    c := [];
    var y := b.minY;
    ghost var j := 0;
    while y < b.maxY
      invariant 0 <= j < |s| && y == Position(b.minY, unit, j)
      invariant c == Column(x0, x1, s, j)
      decreases |s| - j
    {
      PositionStep(b.minY, unit, j);
      assert s[j] == round(y) && s[j + 1] == round(Min(b.maxY, y + unit));
      var y0, y1 := round(y), round(Min(b.maxY, y + unit));
      if !(x0 == x1 || y0 == y1) {
        c := c + [Rect(x0, y0, x1, y1)];
      }
      y := y + unit;
      j := j + 1;
    }
    assert s[j] == s[|s| - 1];
  }

  /** The outer loop of the tiling. */
  method TileColumns(b: Box, unit: real, round: real -> real, ghost r: seq<real>, ghost s: seq<real>)
      returns (rects: seq<Rect>)
    requires AreMarks(round, b.minX, b.maxX, unit, r) && AreMarks(round, b.minY, b.maxY, unit, s)
    ensures rects == Grid(r, s, |r| - 1)
  {
    rects := [];
    var x := b.minX;
    ghost var i := 0;
    while x < b.maxX
      invariant 0 <= i < |r| && x == Position(b.minX, unit, i)
      invariant rects == Grid(r, s, i)
      decreases |r| - i
    {
      PositionStep(b.minX, unit, i);
      assert r[i] == round(x) && r[i + 1] == round(Min(b.maxX, x + unit));
      var x0, x1 := round(x), round(Min(b.maxX, x + unit));
      var column := TileColumn(b, unit, x0, x1, round, s);
      rects := rects + column;
      x := x + unit;
      i := i + 1;
    }
    assert r[i] == r[|r| - 1];
  }

  /** The tiling part of `splitPolygon`. */
  method Tile(b: Box, clusterSize: nat) returns (rects: seq<Rect>)
    requires ProperBox(b) && 0 < clusterSize
    ensures rects == TilesOf(b, clusterSize)
  {
    var longerEdge := Max(b.maxX - b.minX, b.maxY - b.minY);
    var unit := longerEdge / (clusterSize as real);
    UnitIsEnough(b, clusterSize);
    MarksAreMarks(Round, b.minX, b.maxX, unit, clusterSize);
    MarksAreMarks(Round, b.minY, b.maxY, unit, clusterSize);
    rects := TileColumns(b, unit, Round, MarksX(b, clusterSize), MarksY(b, clusterSize));
  }

  // ---------------------------------------------------------------------------------------
  // The tiles are a partition
  // ---------------------------------------------------------------------------------------

  /** How many of the rectangles contain the point. */
  function Hits(rects: seq<Rect>, x: real, y: real): nat {
    if rects == [] then 0
    else (if Contains(rects[0], x, y) then 1 else 0) + Hits(rects[1..], x, y)
  }

  lemma {:induction false} HitsAppend(a: seq<Rect>, b: seq<Rect>, x: real, y: real)
    ensures Hits(a + b, x, y) == Hits(a, x, y) + Hits(b, x, y)
  {
    if a == [] {
      assert a + b == b;
    } else {
      assert (a + b)[1..] == a[1..] + b;
      HitsAppend(a[1..], b, x, y);
    }
  }

  lemma {:induction false} ColumnHits(x0: real, x1: real, s: seq<real>, j: nat, x: real, y: real)
    requires j < |s| && Rising(s)
    ensures Hits(Column(x0, x1, s, j), x, y)
         == if x0 <= x < x1 && s[0] <= y < s[j] then 1 else 0
  {
    if j > 0 {
      ColumnHits(x0, x1, s, j - 1, x, y);
      var last := if x0 == x1 || s[j - 1] == s[j] then [] else [Rect(x0, s[j - 1], x1, s[j])];
      HitsAppend(Column(x0, x1, s, j - 1), last, x, y);
      assert s[0] <= s[j - 1] <= s[j];
    }
  }

  lemma {:induction false} GridHits(r: seq<real>, s: seq<real>, i: nat, x: real, y: real)
    requires i < |r| && s != [] && Rising(r) && Rising(s)
    ensures Hits(Grid(r, s, i), x, y)
         == if r[0] <= x < r[i] && s[0] <= y < s[|s| - 1] then 1 else 0
  {
    if i > 0 {
      GridHits(r, s, i - 1, x, y);
      ColumnHits(r[i - 1], r[i], s, |s| - 1, x, y);
      HitsAppend(Grid(r, s, i - 1), Column(r[i - 1], r[i], s, |s| - 1), x, y);
      assert r[0] <= r[i - 1] <= r[i];
    }
  }

  /** Every point of the rounded bounding box lies in exactly one kept rectangle, and no other
      point in any, although corners are rounded and rectangles without area are skipped. */
  lemma TilesPartition(b: Box, clusterSize: nat, x: real, y: real)
    requires ProperBox(b) && 0 < clusterSize
    ensures Hits(TilesOf(b, clusterSize), x, y)
         == if Contains(Rect(Round(b.minX), Round(b.minY), Round(b.maxX), Round(b.maxY)), x, y)
            then 1 else 0
  {
    UnitIsEnough(b, clusterSize);
    MarksRise(b.minX, b.maxX, Unit(b, clusterSize), clusterSize);
    MarksRise(b.minY, b.maxY, Unit(b, clusterSize), clusterSize);
    var r := MarksX(b, clusterSize);
    GridHits(r, MarksY(b, clusterSize), |r| - 1, x, y);
  }

  lemma {:induction false} ColumnSize(x0: real, x1: real, s: seq<real>, j: nat)
    requires j < |s|
    ensures |Column(x0, x1, s, j)| <= j
  {
    if j > 0 { ColumnSize(x0, x1, s, j - 1); }
  }

  lemma {:induction false} GridSize(r: seq<real>, s: seq<real>, i: nat)
    requires i < |r| && s != []
    ensures |Grid(r, s, i)| <= i * (|s| - 1)
  {
    if i > 0 {
      GridSize(r, s, i - 1);
      ColumnSize(r[i - 1], r[i], s, |s| - 1);
      assert i * (|s| - 1) == (i - 1) * (|s| - 1) + (|s| - 1);
    }
  }

  /** In exact arithmetic there are at most clusterSize squared of them. */
  lemma TilesAreFew(b: Box, clusterSize: nat)
    requires ProperBox(b) && 0 < clusterSize
    ensures |TilesOf(b, clusterSize)| <= clusterSize * clusterSize
  {
    var r, s := MarksX(b, clusterSize), MarksY(b, clusterSize);
    GridSize(r, s, |r| - 1);
    ProductAtMost(|r| - 1, |s| - 1, clusterSize);
  }

  lemma ProductAtMost(m: nat, n: nat, c: nat)
    requires m <= c && n <= c
    ensures m * n <= c * c
  {
    assert c * c - m * n == (c - m) * n + c * (c - n);
  }

  lemma {:induction false} HitAtIndex(rects: seq<Rect>, i: nat, x: real, y: real)
    requires i < |rects| && Contains(rects[i], x, y)
    ensures 1 <= Hits(rects, x, y)
  {
    if i > 0 { HitAtIndex(rects[1..], i - 1, x, y); }
  }

  lemma {:induction false} TwoHits(rects: seq<Rect>, i: nat, j: nat, x: real, y: real)
    requires i < j < |rects| && Contains(rects[i], x, y) && Contains(rects[j], x, y)
    ensures 2 <= Hits(rects, x, y)
  {
    if i == 0 { HitAtIndex(rects[1..], j - 1, x, y); } else { TwoHits(rects[1..], i - 1, j - 1, x, y); }
  }

  /** Two different tiles have no point in common. */
  lemma TilesDisjoint(b: Box, clusterSize: nat, i: nat, j: nat, x: real, y: real)
    requires ProperBox(b) && 0 < clusterSize && i < j < |TilesOf(b, clusterSize)|
    ensures !(Contains(TilesOf(b, clusterSize)[i], x, y) &&
              Contains(TilesOf(b, clusterSize)[j], x, y))
  {
    var rects := TilesOf(b, clusterSize);
    if Contains(rects[i], x, y) && Contains(rects[j], x, y) {
      TwoHits(rects, i, j, x, y);
      TilesPartition(b, clusterSize, x, y);
    }
  }
}
