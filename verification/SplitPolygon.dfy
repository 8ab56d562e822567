/** The depth-bounded recursion of geo/split.go. Polygons are known by their coordinate count,
    their envelope and their interior; the intersection routine is a parameter with a contract. */
module SplitPolygon {
  import opened Options
  import opened TileGrid

  type Point = (real, real)

  /** `bounds` is absent when the envelope is empty or has no corners. */
  datatype Polygon = Polygon(coords: nat, bounds: Option<Box>, interior: iset<Point>)

  /** What `geom.Intersection` may come back with. */
  datatype Geometry = Failed | One(polygon: Polygon) | Many(polygons: seq<Polygon>) | Otherwise

  datatype Split = Split(intersect: (Polygon, Rect) -> Geometry, maxDepth: int, clusterSize: nat)

  /** An emitted polygon and the depth of the call that emitted it. */
  datatype Piece = Piece(polygon: Polygon, depth: int)

  const ENOUGH: nat := 200

  ghost predicate Proper(p: Polygon) {
    p.bounds.Some? ==> ProperBox(p.bounds.value)
  }

  ghost function Open(r: Rect): iset<Point> {
    iset pt: Point | r.x0 < pt.0 < r.x1 && r.y0 < pt.1 < r.y1
  }

  ghost predicate Apart(polygons: seq<Polygon>) {
    forall i, j | 0 <= i < j < |polygons| :: polygons[i].interior !! polygons[j].interior
  }

  /** A fair answer to the intersection of `p` and `r`: interiors lie within both, and the members
      of a multi-polygon do not overlap. */
  ghost predicate Fair(g: Geometry, p: Polygon, r: Rect) {
    && AllProper(Members(g)) && Apart(Members(g))
    && forall k | 0 <= k < |Members(g)| :: Members(g)[k].interior <= p.interior * Open(r)
  }

  /** The contract of the intersection. */
  ghost predicate Intersects(c: Split) {
    forall p, r :: Fair(c.intersect(p, r), p, r)
  }

  ghost predicate Usable(c: Split) {
    0 < c.clusterSize && Intersects(c)
  }

  // ---------------------------------------------------------------------------------------
  // The pieces of one call
  // ---------------------------------------------------------------------------------------

  ghost function Left(c: Split, depth: int): nat {
    if depth < c.maxDepth then c.maxDepth - depth else 0
  }

  ghost function Pieces(c: Split, p: Polygon, depth: int): seq<Piece>
    requires Usable(c) && Proper(p)
    decreases Left(c, depth), 1, 0
  {
    if p.coords < ENOUGH || depth >= c.maxDepth then [Piece(p, depth)]
    else if p.bounds.None? then []
    else
      var rects := TilesOf(p.bounds.value, c.clusterSize);
      PiecesOfTiles(c, p, rects, |rects|, depth)
  }

  /** The pieces that the first `n` rectangles give. */
  ghost function PiecesOfTiles(c: Split, p: Polygon, rects: seq<Rect>, n: nat, depth: int)
      : seq<Piece>
    requires Usable(c) && depth < c.maxDepth && n <= |rects|
    decreases Left(c, depth), 0, n + 1
  {
    if n == 0 then []
    else PiecesOfTiles(c, p, rects, n - 1, depth) + PiecesOfTile(c, p, rects[n - 1], depth)
  }

  ghost function PiecesOfTile(c: Split, p: Polygon, r: Rect, depth: int): seq<Piece>
    requires Usable(c) && depth < c.maxDepth
    decreases Left(c, depth), 0, 0
  {
    var members := Members(c.intersect(p, r));
    PiecesOfAll(c, members, |members|, depth + 1)
  }

  /** The pieces that the first `n` polygons give. */
  ghost function PiecesOfAll(c: Split, polygons: seq<Polygon>, n: nat, depth: int): seq<Piece>
    requires Usable(c) && n <= |polygons| && AllProper(polygons)
    decreases Left(c, depth), 2, n
  {
    if n == 0 then []
    else PiecesOfAll(c, polygons, n - 1, depth) + Pieces(c, polygons[n - 1], depth)
  }

  ghost predicate AllProper(polygons: seq<Polygon>) {
    forall k | 0 <= k < |polygons| :: Proper(polygons[k])
  }

  /** The polygons that the type switch recurses into. */
  function Members(g: Geometry): seq<Polygon> {
    match g
    case One(q) => [q]
    case Many(qs) => qs
    case _ => []
  }

  function Polygons(pieces: seq<Piece>): seq<Polygon> {
    seq(|pieces|, i requires 0 <= i < |pieces| => pieces[i].polygon)
  }

  // ---------------------------------------------------------------------------------------
  // The code
  // ---------------------------------------------------------------------------------------

  /** The slice that all calls of one recursion append to. */
  class Output {
    var polygons: seq<Polygon>

    constructor ()
      ensures polygons == []
    {
      polygons := [];
    }
  }

  lemma EmittedPolygon(pieces: seq<Piece>, piece: Piece)
    requires piece in pieces
    ensures piece.polygon in Polygons(pieces)
  {
    var k :| 0 <= k < |pieces| && pieces[k] == piece;
    assert Polygons(pieces)[k] == piece.polygon;
  }

  lemma PolygonsConcat(a: seq<Piece>, b: seq<Piece>)
    ensures Polygons(a + b) == Polygons(a) + Polygons(b)
  {
  }

  /** `splitPolygon`. */
  method Divide(c: Split, p: Polygon, ps: Output, depth: int)
    requires Usable(c) && Proper(p)
    modifies ps
    ensures ps.polygons == old(ps.polygons) + Polygons(Pieces(c, p, depth))
    decreases Left(c, depth), 1
  {
    if p.coords < ENOUGH || depth >= c.maxDepth {
      ps.polygons := ps.polygons + [p];
      return;
    }
    if p.bounds.None? { return; }
    var rects := Tile(p.bounds.value, c.clusterSize);
    DivideTiles(c, p, rects, ps, depth);
  }

  /** The loop over the rectangles. */
  method DivideTiles(c: Split, p: Polygon, rects: seq<Rect>, ps: Output, depth: int)
    requires Usable(c) && depth < c.maxDepth
    modifies ps
    ensures ps.polygons
         == old(ps.polygons) + Polygons(PiecesOfTiles(c, p, rects, |rects|, depth))
    decreases Left(c, depth), 0, 1
  {
    for i := 0 to |rects|
      invariant ps.polygons == old(ps.polygons) + Polygons(PiecesOfTiles(c, p, rects, i, depth))
    {
      DivideTile(c, p, rects[i], ps, depth);
      PolygonsConcat(PiecesOfTiles(c, p, rects, i, depth), PiecesOfTile(c, p, rects[i], depth));
    }
  }

  /** One rectangle: intersect, then recurse. */
  method DivideTile(c: Split, p: Polygon, r: Rect, ps: Output, depth: int)
    requires Usable(c) && depth < c.maxDepth
    modifies ps
    ensures ps.polygons == old(ps.polygons) + Polygons(PiecesOfTile(c, p, r, depth))
    decreases Left(c, depth), 0, 0
  {
    var g := c.intersect(p, r);
    assert Fair(g, p, r);
    DivideAll(c, Members(g), ps, depth + 1);
  }

  /** The loop over the members of an intersection. */
  method DivideAll(c: Split, polygons: seq<Polygon>, ps: Output, depth: int)
    requires Usable(c) && AllProper(polygons)
    modifies ps
    ensures ps.polygons
         == old(ps.polygons) + Polygons(PiecesOfAll(c, polygons, |polygons|, depth))
    decreases Left(c, depth), 2
  {
    for i := 0 to |polygons|
      invariant ps.polygons == old(ps.polygons) + Polygons(PiecesOfAll(c, polygons, i, depth))
    {
      Divide(c, polygons[i], ps, depth);
      PolygonsConcat(PiecesOfAll(c, polygons, i, depth), Pieces(c, polygons[i], depth));
    }
  }

  // ---------------------------------------------------------------------------------------
  // The pieces are sound
  // ---------------------------------------------------------------------------------------

  /** All pieces lie in the region, and no two of them overlap. */
  ghost predicate Sound(pieces: seq<Piece>, region: iset<Point>) {
    && (forall i | 0 <= i < |pieces| :: pieces[i].polygon.interior <= region)
    && (forall i, j | 0 <= i < j < |pieces| ::
          pieces[i].polygon.interior !! pieces[j].polygon.interior)
  }

  lemma SoundConcat(a: seq<Piece>, b: seq<Piece>, left: iset<Point>, right: iset<Point>)
    requires Sound(a, left) && Sound(b, right) && left !! right
    ensures Sound(a + b, left + right)
  {
    forall i, j | 0 <= i < j < |a + b|
      ensures (a + b)[i].polygon.interior !! (a + b)[j].polygon.interior
    {
      if i < |a| <= j {
        assert (a + b)[i].polygon.interior <= left && (a + b)[j].polygon.interior <= right;
      }
    }
  }

  lemma SoundWithin(a: seq<Piece>, small: iset<Point>, large: iset<Point>)
    requires Sound(a, small) && small <= large
    ensures Sound(a, large)
  {
  }

  /** Emitted at most at the depth limit, and there or with few coordinates. */
  ghost predicate Bounded(c: Split, pieces: seq<Piece>, depth: int) {
    forall i | 0 <= i < |pieces| ::
      && depth <= pieces[i].depth
      && (pieces[i].polygon.coords < ENOUGH || c.maxDepth <= pieces[i].depth)
      && (depth <= c.maxDepth ==> pieces[i].depth <= c.maxDepth)
  }

  ghost predicate InSome(polygons: seq<Polygon>, n: nat, pt: Point)
    requires n <= |polygons|
  {
    exists k | 0 <= k < n :: pt in polygons[k].interior
  }

  ghost predicate InSomeOpen(rects: seq<Rect>, n: nat, pt: Point)
    requires n <= |rects|
  {
    exists k | 0 <= k < n :: pt in Open(rects[k])
  }

  ghost function Interiors(polygons: seq<Polygon>, n: nat): iset<Point>
    requires n <= |polygons|
  {
    iset pt: Point | InSome(polygons, n, pt)
  }

  ghost function Opens(rects: seq<Rect>, n: nat): iset<Point>
    requires n <= |rects|
  {
    iset pt: Point | InSomeOpen(rects, n, pt)
  }

  ghost predicate TilesApart(rects: seq<Rect>) {
    forall i, j | 0 <= i < j < |rects| :: Open(rects[i]) !! Open(rects[j])
  }

  lemma TilesAreApart(b: Box, clusterSize: nat)
    requires ProperBox(b) && 0 < clusterSize
    ensures TilesApart(TilesOf(b, clusterSize))
  {
    var rects := TilesOf(b, clusterSize);
    forall i, j | 0 <= i < j < |rects| ensures Open(rects[i]) !! Open(rects[j]) {
      forall pt: Point | pt in Open(rects[i]) && pt in Open(rects[j]) ensures false {
        TilesDisjoint(b, clusterSize, i, j, pt.0, pt.1);
      }
    }
  }

  lemma {:induction false} PiecesSound(c: Split, p: Polygon, depth: int)
    requires Usable(c) && Proper(p)
    ensures Sound(Pieces(c, p, depth), p.interior) && Bounded(c, Pieces(c, p, depth), depth)
    decreases Left(c, depth), 1, 0
  {
    if !(p.coords < ENOUGH || depth >= c.maxDepth) && p.bounds.Some? {
      var rects := TilesOf(p.bounds.value, c.clusterSize);
      TilesAreApart(p.bounds.value, c.clusterSize);
      TilesSound(c, p, rects, |rects|, depth);
      SoundWithin(PiecesOfTiles(c, p, rects, |rects|, depth),
                  p.interior * Opens(rects, |rects|), p.interior);
    }
  }

  lemma {:induction false} TilesSound(c: Split, p: Polygon, rects: seq<Rect>, n: nat, depth: int)
    requires Usable(c) && depth < c.maxDepth && n <= |rects| && TilesApart(rects)
    ensures Sound(PiecesOfTiles(c, p, rects, n, depth), p.interior * Opens(rects, n))
    ensures Bounded(c, PiecesOfTiles(c, p, rects, n, depth), depth)
    decreases Left(c, depth), 0, n
  {
    if n > 0 {
      var members := Members(c.intersect(p, rects[n - 1]));
      TilesSound(c, p, rects, n - 1, depth);
      AllSound(c, members, |members|, depth + 1);
      var here := p.interior * Open(rects[n - 1]);
      var mine := PiecesOfTile(c, p, rects[n - 1], depth);
      assert Interiors(members, |members|) <= here;
      SoundWithin(mine, Interiors(members, |members|), here);
      SoundConcat(PiecesOfTiles(c, p, rects, n - 1, depth), mine,
                  p.interior * Opens(rects, n - 1), here);
      SoundWithin(PiecesOfTiles(c, p, rects, n, depth),
                  p.interior * Opens(rects, n - 1) + here, p.interior * Opens(rects, n));
    }
  }

  lemma {:induction false} AllSound(c: Split, polygons: seq<Polygon>, n: nat, depth: int)
    requires Usable(c) && Apart(polygons) && AllProper(polygons) && n <= |polygons|
    ensures Sound(PiecesOfAll(c, polygons, n, depth), Interiors(polygons, n))
    ensures Bounded(c, PiecesOfAll(c, polygons, n, depth), depth)
    decreases Left(c, depth), 2, n
  {
    if n > 0 {
      var last := polygons[n - 1];
      AllSound(c, polygons, n - 1, depth);
      PiecesSound(c, last, depth);
      SoundConcat(PiecesOfAll(c, polygons, n - 1, depth), Pieces(c, last, depth),
                  Interiors(polygons, n - 1), last.interior);
      SoundWithin(PiecesOfAll(c, polygons, n, depth),
                  Interiors(polygons, n - 1) + last.interior, Interiors(polygons, n));
    }
  }

  // ---------------------------------------------------------------------------------------
  // Nothing is dropped and nothing else comes out
  // ---------------------------------------------------------------------------------------

  /** A way down the recursion: the tile and the member of its intersection. */
  datatype Branch = Branch(tile: nat, member: nat)

  /** A polygon that is emitted as it is. */
  predicate Whole(c: Split, piece: Piece) {
    piece.polygon.coords < ENOUGH || piece.depth >= c.maxDepth
  }

  /** The tiles of a polygon that is split. */
  ghost function TilesFor(c: Split, p: Polygon): seq<Rect>
    requires Usable(c) && Proper(p)
  {
    if p.bounds.None? then [] else TilesOf(p.bounds.value, c.clusterSize)
  }

  /** What is in a tile. */
  ghost function MembersIn(c: Split, p: Polygon, r: Rect): (members: seq<Polygon>)
    requires Usable(c)
    ensures AllProper(members) && Apart(members)
    ensures forall k | 0 <= k < |members| :: members[k].interior <= p.interior * Open(r)
  {
    assert Fair(c.intersect(p, r), p, r);
    Members(c.intersect(p, r))
  }

  /** Where a path leads from a polygon, if there is such a path. */
  ghost function Follow(c: Split, from: Piece, path: seq<Branch>): Option<Piece>
    requires Usable(c) && Proper(from.polygon)
    decreases |path|
  {
    if path == [] then Some(from)
    else if Whole(c, from) || |TilesFor(c, from.polygon)| <= path[0].tile then None
    else
      var members := MembersIn(c, from.polygon, TilesFor(c, from.polygon)[path[0].tile]);
      if |members| <= path[0].member then None
      else Follow(c, Piece(members[path[0].member], from.depth + 1), path[1..])
  }

  /** The path ends at a polygon that is emitted. */
  ghost predicate LeadsTo(c: Split, from: Piece, path: seq<Branch>, piece: Piece)
    requires Usable(c) && Proper(from.polygon)
  {
    Follow(c, from, path) == Some(piece) && Whole(c, piece)
  }

  lemma {:induction false} TileIsAmong(c: Split, p: Polygon, rects: seq<Rect>, n: nat, depth: int,
                                       i: nat, piece: Piece)
    requires Usable(c) && depth < c.maxDepth && i < n <= |rects|
    requires piece in PiecesOfTile(c, p, rects[i], depth)
    ensures piece in PiecesOfTiles(c, p, rects, n, depth)
  {
    if i < n - 1 { TileIsAmong(c, p, rects, n - 1, depth, i, piece); }
  }

  lemma {:induction false} MemberIsAmong(c: Split, polygons: seq<Polygon>, n: nat, depth: int,
                                         j: nat, piece: Piece)
    requires Usable(c) && AllProper(polygons) && j < n <= |polygons|
    requires piece in Pieces(c, polygons[j], depth)
    ensures piece in PiecesOfAll(c, polygons, n, depth)
  {
    if j < n - 1 { MemberIsAmong(c, polygons, n - 1, depth, j, piece); }
  }

  lemma {:induction false} SomeTile(c: Split, p: Polygon, rects: seq<Rect>, n: nat, depth: int,
                                    piece: Piece) returns (i: nat)
    requires Usable(c) && depth < c.maxDepth && n <= |rects|
    requires piece in PiecesOfTiles(c, p, rects, n, depth)
    ensures i < n && piece in PiecesOfTile(c, p, rects[i], depth)
  {
    if piece in PiecesOfTile(c, p, rects[n - 1], depth) {
      i := n - 1;
    } else {
      i := SomeTile(c, p, rects, n - 1, depth, piece);
    }
  }

  lemma {:induction false} SomeMember(c: Split, polygons: seq<Polygon>, n: nat, depth: int,
                                      piece: Piece) returns (j: nat)
    requires Usable(c) && AllProper(polygons) && n <= |polygons|
    requires piece in PiecesOfAll(c, polygons, n, depth)
    ensures j < n && piece in Pieces(c, polygons[j], depth)
  {
    if piece in Pieces(c, polygons[n - 1], depth) {
      j := n - 1;
    } else {
      j := SomeMember(c, polygons, n - 1, depth, piece);
    }
  }

  /** Upwards: what a member gives is among the pieces. */
  lemma FromMember(c: Split, p: Polygon, depth: int, i: nat, j: nat, piece: Piece)
    requires Usable(c) && Proper(p) && !Whole(c, Piece(p, depth)) && i < |TilesFor(c, p)|
    requires var members := MembersIn(c, p, TilesFor(c, p)[i]);
             j < |members| && piece in Pieces(c, members[j], depth + 1)
    ensures piece in Pieces(c, p, depth)
  {
    var rects := TilesFor(c, p);
    var members := MembersIn(c, p, rects[i]);
    MemberIsAmong(c, members, |members|, depth + 1, j, piece);
    TileIsAmong(c, p, rects, |rects|, depth, i, piece);
  }

  /** Downwards: each piece comes from a member. */
  lemma ToMember(c: Split, p: Polygon, depth: int, piece: Piece) returns (i: nat, j: nat)
    requires Usable(c) && Proper(p) && !Whole(c, Piece(p, depth)) && piece in Pieces(c, p, depth)
    ensures i < |TilesFor(c, p)|
    ensures var members := MembersIn(c, p, TilesFor(c, p)[i]);
            j < |members| && piece in Pieces(c, members[j], depth + 1)
  {
    var rects := TilesFor(c, p);
    i := SomeTile(c, p, rects, |rects|, depth, piece);
    var members := MembersIn(c, p, rects[i]);
    j := SomeMember(c, members, |members|, depth + 1, piece);
  }

  /** No path is dropped. */
  lemma {:induction false} PathIsEmitted(c: Split, p: Polygon, depth: int, path: seq<Branch>,
                                         piece: Piece)
    requires Usable(c) && Proper(p) && LeadsTo(c, Piece(p, depth), path, piece)
    ensures piece in Pieces(c, p, depth)
    decreases |path|
  {
    if path != [] {
      var i, j := path[0].tile, path[0].member;
      PathIsEmitted(c, MembersIn(c, p, TilesFor(c, p)[i])[j], depth + 1, path[1..], piece);
      FromMember(c, p, depth, i, j, piece);
    }
  }

  /** Every piece has its path. */
  lemma {:induction false} PieceHasPath(c: Split, p: Polygon, depth: int, piece: Piece)
      returns (path: seq<Branch>)
    requires Usable(c) && Proper(p) && piece in Pieces(c, p, depth)
    ensures LeadsTo(c, Piece(p, depth), path, piece)
    decreases Left(c, depth)
  {
    if Whole(c, Piece(p, depth)) {
      path := [];
    } else {
      var i, j := ToMember(c, p, depth, piece);
      var rest := PieceHasPath(c, MembersIn(c, p, TilesFor(c, p)[i])[j], depth + 1, piece);
      path := [Branch(i, j)] + rest;
      assert path[1..] == rest;
    }
  }

  /** The pieces are exactly the polygons with fewer than 200 coordinates, or at the depth limit, at
      the ends of the paths down the recursion. */
  lemma PiecesExactly(c: Split, p: Polygon, depth: int, piece: Piece)
    requires Usable(c) && Proper(p)
    ensures piece in Pieces(c, p, depth)
      <==> exists path :: LeadsTo(c, Piece(p, depth), path, piece)
    ensures Whole(c, piece) <==> piece.polygon.coords < 200 || piece.depth >= c.maxDepth
  {
    if piece in Pieces(c, p, depth) { var path := PieceHasPath(c, p, depth, piece); }
    forall path | LeadsTo(c, Piece(p, depth), path, piece) ensures piece in Pieces(c, p, depth) {
      PathIsEmitted(c, p, depth, path, piece);
    }
  }

  /** Every path that ends at an emitted polygon has it among the output, and every output has its
      path. */
  ghost predicate EndsOfPaths(c: Split, p: Polygon, polygons: seq<Polygon>, depths: seq<int>)
    requires Usable(c) && Proper(p) && |depths| == |polygons|
  {
    && (forall path, piece | LeadsTo(c, Piece(p, 0), path, piece) :: piece.polygon in polygons)
    && (forall k | 0 <= k < |polygons| :: HasPath(c, p, Piece(polygons[k], depths[k])))
  }

  ghost predicate HasPath(c: Split, p: Polygon, piece: Piece)
    requires Usable(c) && Proper(p)
  {
    exists path :: LeadsTo(c, Piece(p, 0), path, piece)
  }

  lemma PiecesAreEnds(c: Split, p: Polygon, depths: seq<int>)
    requires Usable(c) && Proper(p) && |depths| == |Pieces(c, p, 0)|
    requires forall k | 0 <= k < |depths| :: depths[k] == Pieces(c, p, 0)[k].depth
    ensures EndsOfPaths(c, p, Polygons(Pieces(c, p, 0)), depths)
  {
    var pieces := Pieces(c, p, 0);
    forall path, piece | LeadsTo(c, Piece(p, 0), path, piece)
      ensures piece.polygon in Polygons(pieces)
    {
      PathIsEmitted(c, p, 0, path, piece);
      EmittedPolygon(pieces, piece);
    }
    forall k | 0 <= k < |pieces| ensures HasPath(c, p, Piece(Polygons(pieces)[k], depths[k])) {
      assert Piece(Polygons(pieces)[k], depths[k]) == pieces[k] && pieces[k] in pieces;
      var path := PieceHasPath(c, p, 0, pieces[k]);
    }
  }

  // ---------------------------------------------------------------------------------------
  // With exact intersections only grid lines are lost
  // ---------------------------------------------------------------------------------------

  /** Every common interior point lies in a member of the intersection. */
  ghost predicate Exact(c: Split) {
    forall p: Polygon, r: Rect, pt: Point ::
      pt in p.interior && pt in Open(r) ==> InMember(c.intersect(p, r), pt)
  }

  ghost predicate InMember(g: Geometry, pt: Point) {
    match g
    case One(q) => pt in q.interior
    case Many(qs) => exists j | 0 <= j < |qs| :: pt in qs[j].interior
    case _ => false
  }

  /** At every level down to a piece the point lies inside a tile of the polygon it is in, neither on
      a grid line nor outside the rounded box. */
  ghost predicate OffLines(c: Split, from: Piece, pt: Point)
    requires Usable(c) && Proper(from.polygon)
    decreases Left(c, from.depth), 1
  {
    Whole(c, from) ||
    exists i | 0 <= i < |TilesFor(c, from.polygon)| ::
      pt in Open(TilesFor(c, from.polygon)[i]) && OffLinesIn(c, from, i, pt)
  }

  ghost predicate OffLinesIn(c: Split, from: Piece, i: nat, pt: Point)
    requires Usable(c) && Proper(from.polygon) && from.depth < c.maxDepth
    requires i < |TilesFor(c, from.polygon)|
    decreases Left(c, from.depth), 0
  {
    var members := MembersIn(c, from.polygon, TilesFor(c, from.polygon)[i]);
    forall j | 0 <= j < |members| ::
      pt in members[j].interior ==> OffLines(c, Piece(members[j], from.depth + 1), pt)
  }

  lemma {:induction false} OffLinesIsCovered(c: Split, p: Polygon, depth: int, pt: Point)
      returns (piece: Piece)
    requires Usable(c) && Exact(c) && Proper(p)
    requires pt in p.interior && OffLines(c, Piece(p, depth), pt)
    ensures piece in Pieces(c, p, depth) && pt in piece.polygon.interior
    decreases Left(c, depth)
  {
    if Whole(c, Piece(p, depth)) {
      piece := Piece(p, depth);
    } else {
      var i := TileWith(c, Piece(p, depth), pt);
      var j := MemberWith(c, p, TilesFor(c, p)[i], pt);
      piece := OffLinesIsCovered(c, MembersIn(c, p, TilesFor(c, p)[i])[j], depth + 1, pt);
      FromMember(c, p, depth, i, j, piece);
    }
  }

  lemma TileWith(c: Split, from: Piece, pt: Point) returns (i: nat)
    requires Usable(c) && Proper(from.polygon)
    requires !Whole(c, from) && OffLines(c, from, pt)
    ensures i < |TilesFor(c, from.polygon)| && pt in Open(TilesFor(c, from.polygon)[i])
    ensures OffLinesIn(c, from, i, pt)
  {
    i :| 0 <= i < |TilesFor(c, from.polygon)|
      && pt in Open(TilesFor(c, from.polygon)[i]) && OffLinesIn(c, from, i, pt);
  }

  lemma MemberWith(c: Split, p: Polygon, r: Rect, pt: Point) returns (j: nat)
    requires Usable(c) && Exact(c) && pt in p.interior && pt in Open(r)
    ensures j < |MembersIn(c, p, r)| && pt in MembersIn(c, p, r)[j].interior
  {
    var g := c.intersect(p, r);
    assert InMember(g, pt);
    if g.One? { assert MembersIn(c, p, r)[0] == g.polygon; }
    j :| 0 <= j < |MembersIn(c, p, r)| && pt in MembersIn(c, p, r)[j].interior;
  }

  lemma {:induction false} CoveredIsOffLines(c: Split, p: Polygon, depth: int, pt: Point,
                                             piece: Piece)
    requires Usable(c) && Proper(p)
    requires piece in Pieces(c, p, depth) && pt in piece.polygon.interior
    ensures OffLines(c, Piece(p, depth), pt)
    decreases Left(c, depth)
  {
    if !Whole(c, Piece(p, depth)) {
      var i, j := ToMember(c, p, depth, piece);
      var members := MembersIn(c, p, TilesFor(c, p)[i]);
      PieceIsInside(c, members[j], depth + 1, piece);
      CoveredIsOffLines(c, members[j], depth + 1, pt, piece);
      assert forall k | 0 <= k < |members| && pt in members[k].interior :: k == j;
      assert OffLinesIn(c, Piece(p, depth), i, pt);
    }
  }

  lemma PieceIsInside(c: Split, p: Polygon, depth: int, piece: Piece)
    requires Usable(c) && Proper(p) && piece in Pieces(c, p, depth)
    ensures piece.polygon.interior <= p.interior
  {
    PiecesSound(c, p, depth);
    var k :| 0 <= k < |Pieces(c, p, depth)| && Pieces(c, p, depth)[k] == piece;
  }

  /** If intersections are exact, the pieces cover exactly the interior points that lie, at every
      level, inside a tile. */
  lemma CoveredExactly(c: Split, p: Polygon, depth: int, pt: Point)
    requires Usable(c) && Exact(c) && Proper(p) && pt in p.interior
    ensures (exists piece | piece in Pieces(c, p, depth) :: pt in piece.polygon.interior)
      <==> OffLines(c, Piece(p, depth), pt)
  {
    if OffLines(c, Piece(p, depth), pt) { var piece := OffLinesIsCovered(c, p, depth, pt); }
    forall piece | piece in Pieces(c, p, depth) && pt in piece.polygon.interior
      ensures OffLines(c, Piece(p, depth), pt)
    {
      CoveredIsOffLines(c, p, depth, pt, piece);
    }
  }

  ghost function Depths(pieces: seq<Piece>): (depths: seq<int>)
    ensures |depths| == |pieces|
    ensures forall k | 0 <= k < |pieces| :: depths[k] == pieces[k].depth
  {
    seq(|pieces|, i requires 0 <= i < |pieces| => pieces[i].depth)
  }

  /** No two polygons overlap; each lies inside `p` and is small or at the depth limit. */
  ghost predicate Good(c: Split, p: Polygon, polygons: seq<Polygon>, depths: seq<int>)
    requires |depths| == |polygons|
  {
    && Apart(polygons)
    && forall k | 0 <= k < |polygons| ::
         && polygons[k].interior <= p.interior
         && (polygons[k].coords < 200 || c.maxDepth <= depths[k])
         && (0 <= c.maxDepth ==> 0 <= depths[k] <= c.maxDepth)
  }

  lemma PiecesAreGood(c: Split, p: Polygon)
    requires Usable(c) && Proper(p)
    ensures Good(c, p, Polygons(Pieces(c, p, 0)), Depths(Pieces(c, p, 0)))
  {
    PiecesSound(c, p, 0);
  }

  /** One top-level call: over the whole recursion tree every emitted piece lies inside the input,
      no two pieces overlap, and each has fewer than 200 coordinates or sits at the depth limit.
      What comes out is what the paths down the recursion end at. */
  method SplitOne(c: Split, p: Polygon) returns (ps: Output, ghost depths: seq<int>)
    requires Usable(c) && Proper(p)
    ensures fresh(ps) && |depths| == |ps.polygons|
    ensures Good(c, p, ps.polygons, depths)
    ensures EndsOfPaths(c, p, ps.polygons, depths)
  {
    ps := new Output();
    Divide(c, p, ps, 0);
    depths := Depths(Pieces(c, p, 0));
    assert ps.polygons == Polygons(Pieces(c, p, 0));
    PiecesAreGood(c, p);
    PiecesAreEnds(c, p, depths);
  }
}
