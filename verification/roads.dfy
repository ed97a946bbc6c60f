/** Road placement: `SetRoad` clears every Road and Forbidden cell, puts Road
    on the listed in-range coordinates, and then turns every still-Empty
    orthogonal neighbour of a listed coordinate into Forbidden. */
module Roads {
  import opened Board

  /** What the clearing pass leaves in a cell. */
  function Cleared(t: Tile): Tile {
    if t == Road || t == Forbidden then Empty else t
  }

  /** The clearing pass: Road and Forbidden cells become Empty. */
  function ClearRoads(g: Grid): (r: Grid)
    ensures forall c | InRange(c) :: At(r, c) == Cleared(At(g, c))
  {
    seq(GridHeight, y requires 0 <= y < GridHeight =>
      seq(GridWidth, x requires 0 <= x < GridWidth => Cleared(g[y][x])))
  }

  /** The placing pass: each listed coordinate inside the grid becomes Road,
      whatever it held; coordinates outside the grid are skipped. */
  function PlaceRoads(g: Grid, tiles: seq<Coord>): (r: Grid)
    ensures forall c | InRange(c) :: At(r, c) == if c in tiles then Road else At(g, c)
    decreases |tiles|
  {
    if |tiles| == 0 then g
    else
      var g' := if InRange(tiles[0]) then Update(g, tiles[0], Road) else g;
      assert forall c :: c in tiles <==> c == tiles[0] || c in tiles[1..];
      PlaceRoads(g', tiles[1..])
  }

  /** One road tile's neighbour loop: each in-range neighbour that is Empty
      at the moment it is visited becomes Forbidden. */
  function ForbidAround(g: Grid, around: seq<Coord>): (r: Grid)
    ensures forall c | InRange(c) ::
      At(r, c) == if At(g, c) == Empty && c in around then Forbidden else At(g, c)
    decreases |around|
  {
    if |around| == 0 then g
    else
      var n := around[0];
      var g' := if InRange(n) && At(g, n) == Empty then Update(g, n, Forbidden) else g;
      assert forall c :: c in around <==> c == n || c in around[1..];
      ForbidAround(g', around[1..])
  }

  /** The marking pass over every listed coordinate, in range or not. */
  function MarkForbidden(g: Grid, tiles: seq<Coord>): (r: Grid)
    ensures forall c | InRange(c) ::
      At(r, c) == if At(g, c) == Empty && NextToAny(c, tiles) then Forbidden else At(g, c)
    decreases |tiles|
  {
    if |tiles| == 0 then g
    else
      var g' := ForbidAround(g, Neighbors(tiles[0]));
      var r := MarkForbidden(g', tiles[1..]);
      assert forall c | InRange(c) :: NextToAny(c, tiles) <==> Adjacent(tiles[0], c) || NextToAny(c, tiles[1..]) by {
        forall c | InRange(c) && NextToAny(c, tiles[1..])
          ensures NextToAny(c, tiles)
        {
          var i :| 0 <= i < |tiles[1..]| && Adjacent(tiles[1..][i], c);
          assert Adjacent(tiles[i + 1], c);
        }
        forall c | InRange(c) && NextToAny(c, tiles) && !Adjacent(tiles[0], c)
          ensures NextToAny(c, tiles[1..])
        {
          var i :| 0 <= i < |tiles| && Adjacent(tiles[i], c);
          assert i > 0;
          assert Adjacent(tiles[1..][i - 1], c);
        }
      }
      r
  }

  /** SetRoad (game/game.go:50-83). */
  function SetRoad(g: Grid, tiles: seq<Coord>): (r: Grid)
    ensures forall c | InRange(c) && c in tiles :: At(r, c) == Road
    ensures forall c | InRange(c) && c !in tiles ::
      At(r, c) == if Cleared(At(g, c)) == Empty && NextToAny(c, tiles) then Forbidden else Cleared(At(g, c))
  {
    MarkForbidden(PlaceRoads(ClearRoads(g), tiles), tiles)
  }

  /** The layout a set of road coordinates determines, cell by cell: the
      reference definition SetRoad is measured against. */
  function LayoutTile(t: Tile, c: Coord, roads: set<Coord>): Tile {
    if c in roads then Road
    else if Cleared(t) == Empty && exists r | r in roads :: Adjacent(r, c) then Forbidden
    else Cleared(t)
  }

  function RoadLayout(g: Grid, roads: set<Coord>): (r: Grid)
    ensures forall c | InRange(c) :: At(r, c) == LayoutTile(At(g, c), c, roads)
  {
    seq(GridHeight, y requires 0 <= y < GridHeight =>
      seq(GridWidth, x requires 0 <= x < GridWidth => LayoutTile(g[y][x], Coord(x, y), roads)))
  }

  function Elements(tiles: seq<Coord>): set<Coord> {
    set t | t in tiles
  }

  /** SetRoad depends on the list only through the set of its entries. */
  lemma SetRoadIsLayout(g: Grid, tiles: seq<Coord>)
    ensures SetRoad(g, tiles) == RoadLayout(g, Elements(tiles))
  {
    var a := SetRoad(g, tiles);
    var b := RoadLayout(g, Elements(tiles));
    forall c | InRange(c)
      ensures At(a, c) == At(b, c)
    {
      if NextToAny(c, tiles) {
        var i :| 0 <= i < |tiles| && Adjacent(tiles[i], c);
        assert tiles[i] in Elements(tiles);
      }
      if exists r | r in Elements(tiles) :: Adjacent(r, c) {
        var r :| r in Elements(tiles) && Adjacent(r, c);
        var i :| 0 <= i < |tiles| && tiles[i] == r;
        assert NextToAny(c, tiles);
      }
    }
    GridExt(a, b);
  }

  /** Permuting or duplicating the road list does not change the result. */
  lemma SetRoadOrderIrrelevant(g: Grid, a: seq<Coord>, b: seq<Coord>)
    requires forall t :: t in a <==> t in b
    ensures SetRoad(g, a) == SetRoad(g, b)
  {
    SetRoadIsLayout(g, a);
    SetRoadIsLayout(g, b);
    assert Elements(a) == Elements(b);
  }

  /** Applying the same road list twice equals applying it once. */
  lemma SetRoadIdempotent(g: Grid, tiles: seq<Coord>)
    ensures SetRoad(SetRoad(g, tiles), tiles) == SetRoad(g, tiles)
  {
    var once := SetRoad(g, tiles);
    var twice := SetRoad(once, tiles);
    forall c | InRange(c)
      ensures At(twice, c) == At(once, c)
    {
      if c !in tiles {
        assert Cleared(At(once, c)) == Cleared(At(g, c));
      }
    }
    GridExt(twice, once);
  }

  /** A listed coordinate outside the grid is not placed, but each in-range
      neighbour of it that is not listed and clears to Empty still becomes
      Forbidden. */
  lemma OffGridRoadStillForbids(g: Grid, tiles: seq<Coord>, c: Coord, n: Coord)
    requires c in tiles && !InRange(c)
    requires InRange(n) && Adjacent(c, n) && n !in tiles && Cleared(At(g, n)) == Empty
    ensures At(SetRoad(g, tiles), n) == Forbidden
  {
    var i :| 0 <= i < |tiles| && tiles[i] == c;
    assert Adjacent(tiles[i], n);
  }

  /** For instance, the road entry (-1, 5) on a fresh grid forbids (0, 5). */
  lemma OffGridRoadExample()
    ensures At(SetRoad(NewGrid(), [Coord(-1, 5)]), Coord(0, 5)) == Forbidden
  {
    OffGridRoadStillForbids(NewGrid(), [Coord(-1, 5)], Coord(-1, 5), Coord(0, 5));
  }
}
