/** The road-placement clicks (main.go:280-293, 361-376): a left click adds
    a road tile, a held right button removes one; both rebuild the road list
    in row-major order, hand it to SetRoad and reset the shown solution. */
module Clicks {
  import opened Board
  import opened Roads
  import opened Forests
  import opened Search

  const TileSize := 32
  const PanelWidth := 240

  /** Go's integer division for a positive divisor: truncation toward
      zero, not Dafny's Euclidean division. */
  function GoQuot(a: int, b: int): (q: int)
    requires b > 0
    ensures a >= 0 ==> q * b <= a < q * b + b
    ensures a < 0 ==> q * b >= a > q * b - b
    ensures a < 0 ==> q <= 0
  {
    if a >= 0 then a / b else -((-a) / b)
  }

  /** The grid cell under a game-area click. */
  function ClickCell(mouseX: int, mouseY: int): Coord
    requires mouseX >= PanelWidth
  {
    Coord(GoQuot(mouseX - PanelWidth, TileSize), GoQuot(mouseY, TileSize))
  }

  /** A click inside a tile's square selects that tile. */
  lemma ClickCellInsideTile(c: Coord, dx: int, dy: int)
    requires InRange(c) && 0 <= dx < TileSize && 0 <= dy < TileSize
    ensures ClickCell(PanelWidth + c.x * TileSize + dx, c.y * TileSize + dy) == c
  {
  }

  /** Truncation maps the strip of 31 pixels just above the game area to
      row 0 as well. */
  lemma AboveTopRowMapsToRowZero(mouseX: int, mouseY: int)
    requires mouseX >= PanelWidth && -TileSize < mouseY < 0
    ensures ClickCell(mouseX, mouseY).y == 0
  {
  }

  /** The flat row-major index of a cell and back. */
  function CellAt(i: int): (c: Coord)
    requires 0 <= i < GridHeight * GridWidth
    ensures InRange(c) && c.y * GridWidth + c.x == i
  {
    Coord(i % GridWidth, i / GridWidth)
  }

  /** The Road cells among the first n cells in row-major order, in that
      order: the handlers' nested row/column loop. */
  function RoadCellsUpTo(g: Grid, n: int): (r: seq<Coord>)
    requires 0 <= n <= GridHeight * GridWidth
    ensures forall c :: c in r <==> InRange(c) && c.y * GridWidth + c.x < n && At(g, c) == Road
    ensures forall i, j | 0 <= i < j < |r| :: r[i].y * GridWidth + r[i].x < r[j].y * GridWidth + r[j].x
  {
    if n == 0 then []
    else
      var c := CellAt(n - 1);
      CellAtOnly(n - 1);
      RoadCellsUpTo(g, n - 1) + if At(g, c) == Road then [c] else []
  }

  /** Only one in-range cell has a given row-major index. */
  lemma CellAtOnly(i: int)
    requires 0 <= i < GridHeight * GridWidth
    ensures forall c | InRange(c) && c.y * GridWidth + c.x == i :: c == CellAt(i)
  {
  }

  function RoadCells(g: Grid): (r: seq<Coord>)
    ensures forall c :: c in r <==> InRange(c) && At(g, c) == Road
  {
    RoadCellsUpTo(g, |g| * |g[0]|)
  }

  /** The Road cells of the grid, as a set. */
  function RoadSet(g: Grid): set<Coord> {
    set c | c in RoadCells(g)
  }

  /** What the handler leaves on screen: the grid, and the solution shown
      for it. */
  datatype Screen = Screen(grid: Grid, shown: Solution)

  /** The shown solution after a road edit: nil path, profit -1.0, the new
      grid. */
  function ResetShown(g: Grid): Solution {
    Solution([], NoProfit, g)
  }

  predicate CanPlace(g: Grid, c: Coord) {
    InRange(c) && (At(g, c) == Empty || At(g, c) == Forbidden)
  }

  predicate CanRemove(g: Grid, c: Coord) {
    InRange(c) && At(g, c) == Road
  }

  /** Left click while placing road (main.go:282-293). */
  function PlaceRoadClick(s: Screen, c: Coord): (r: Screen)
    ensures !CanPlace(s.grid, c) ==> r == s
    ensures CanPlace(s.grid, c) ==> r.grid == RoadLayout(s.grid, RoadSet(s.grid) + {c}) && r.shown == ResetShown(r.grid)
  {
    if CanPlace(s.grid, c) then
      var g := SetRoad(s.grid, RoadCells(s.grid) + [c]);
      PlacedLayout(s.grid, c);
      Screen(g, ResetShown(g))
    else s
  }

  /** Right button held over a cell while placing road (main.go:366-376). */
  function RemoveRoadClick(s: Screen, c: Coord): (r: Screen)
    ensures !CanRemove(s.grid, c) ==> r == s
    ensures CanRemove(s.grid, c) ==> r.grid == RoadLayout(s.grid, RoadSet(s.grid) - {c}) && r.shown == ResetShown(r.grid)
  {
    if CanRemove(s.grid, c) then
      var g := SetRoad(s.grid, Without(RoadCells(s.grid), c));
      RemovedLayout(s.grid, c);
      Screen(g, ResetShown(g))
    else s
  }

  /** The list the place handler hands to SetRoad lays out the road set
      with the clicked cell added. */
  lemma PlacedLayout(g: Grid, c: Coord)
    ensures SetRoad(g, RoadCells(g) + [c]) == RoadLayout(g, RoadSet(g) + {c})
  {
    var tiles := RoadCells(g) + [c];
    SetRoadIsLayout(g, tiles);
    assert Elements(tiles) == RoadSet(g) + {c};
  }

  /** The list the remove handler hands to SetRoad lays out the road set
      with the clicked cell taken out. */
  lemma RemovedLayout(g: Grid, c: Coord)
    ensures SetRoad(g, Without(RoadCells(g), c)) == RoadLayout(g, RoadSet(g) - {c})
  {
    var tiles := Without(RoadCells(g), c);
    SetRoadIsLayout(g, tiles);
    assert Elements(tiles) == RoadSet(g) - {c};
  }

  /** The list with every occurrence of `c` dropped, order kept. */
  function Without(s: seq<Coord>, c: Coord): (r: seq<Coord>)
    ensures forall d :: d in r <==> d in s && d != c
    ensures |r| <= |s|
  {
    if |s| == 0 then []
    else (if s[0] == c then [] else [s[0]]) + Without(s[1..], c)
  }

  /** The Road cells of a layout are exactly its in-range road set. */
  lemma LayoutRoads(g: Grid, roads: set<Coord>)
    requires forall c | c in roads :: InRange(c)
    ensures RoadSet(RoadLayout(g, roads)) == roads
  {
  }

  /** A grid SetRoad could have produced: every grid the road editor shows. */
  predicate Normal(g: Grid) {
    g == RoadLayout(g, RoadSet(g))
  }

  lemma NewGridNormal()
    ensures Normal(NewGrid())
  {
    var g := NewGrid();
    assert RoadSet(g) == {};
    GridExt(g, RoadLayout(g, {}));
  }

  /** Laying out a road set only ever looks at a cell's cleared kind, and a
      layout's cells clear to the input's cleared kind off the road set. */
  lemma RelayoutSameCleared(a: Grid, b: Grid, roads: set<Coord>)
    requires forall c | InRange(c) && c !in roads :: Cleared(At(a, c)) == Cleared(At(b, c))
    ensures RoadLayout(a, roads) == RoadLayout(b, roads)
  {
    GridExt(RoadLayout(a, roads), RoadLayout(b, roads));
  }

  /** Both clicks keep the grid a layout of its own roads. */
  lemma ClicksKeepNormal(s: Screen, c: Coord)
    ensures Normal(PlaceRoadClick(s, c).grid) || PlaceRoadClick(s, c) == s
    ensures Normal(RemoveRoadClick(s, c).grid) || RemoveRoadClick(s, c) == s
  {
    if CanPlace(s.grid, c) {
      var roads := RoadSet(s.grid) + {c};
      var g := RoadLayout(s.grid, roads);
      LayoutRoads(s.grid, roads);
      RelayoutSameCleared(g, s.grid, roads);
      LayoutIdempotent(s.grid, roads);
    }
    if CanRemove(s.grid, c) {
      var roads := RoadSet(s.grid) - {c};
      LayoutRoads(s.grid, roads);
      LayoutIdempotent(s.grid, roads);
    }
  }

  lemma LayoutIdempotent(g: Grid, roads: set<Coord>)
    ensures RoadLayout(RoadLayout(g, roads), roads) == RoadLayout(g, roads)
  {
    GridExt(RoadLayout(RoadLayout(g, roads), roads), RoadLayout(g, roads));
  }

  /** Removing the road tile just placed gives back the grid the editor
      showed before the click. */
  lemma PlaceThenRemove(s: Screen, c: Coord)
    requires Normal(s.grid) && CanPlace(s.grid, c)
    ensures RemoveRoadClick(PlaceRoadClick(s, c), c).grid == s.grid
  {
    var roads := RoadSet(s.grid);
    var placed := PlaceRoadClick(s, c);
    LayoutRoads(s.grid, roads + {c});
    assert RoadSet(placed.grid) == roads + {c};
    assert CanRemove(placed.grid, c);
    assert roads + {c} - {c} == roads;
    RelayoutSameCleared(placed.grid, s.grid, roads);
  }
}
