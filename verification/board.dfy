/** The game board: the five tile kinds, grid coordinates and the fixed
    12 x 21 grid, with the adjacency and border notions every other module
    is phrased in. */
module Board {

  const GridHeight := 12
  const GridWidth := 21

  /** Exactly one kind per cell; a fresh grid is all Empty. */
  datatype Tile = Empty | Road | River | Forest | Forbidden

  /** A cell position: x is the column, y the row (both 0-based). */
  datatype Coord = Coord(x: int, y: int)

  predicate IsGrid(rows: seq<seq<Tile>>) {
    |rows| == GridHeight && forall y | 0 <= y < |rows| :: |rows[y]| == GridWidth
  }

  /** The board, indexed row first (g[y][x]), as in the source's array type. */
  type Grid = rows: seq<seq<Tile>> | IsGrid(rows)
    witness seq(GridHeight, _ => seq(GridWidth, _ => Empty))

  predicate InRange(c: Coord) {
    0 <= c.x < GridWidth && 0 <= c.y < GridHeight
  }

  function At(g: Grid, c: Coord): Tile
    requires InRange(c)
  {
    g[c.y][c.x]
  }

  /** The grid with one cell overwritten. */
  function Update(g: Grid, c: Coord, t: Tile): (r: Grid)
    requires InRange(c)
    ensures forall d | InRange(d) :: At(r, d) == if d == c then t else At(g, d)
  {
    g[c.y := g[c.y][c.x := t]]
  }

  /** A new grid: every cell Empty. */
  function NewGrid(): (g: Grid)
    ensures forall c | InRange(c) :: At(g, c) == Empty
  {
    seq(GridHeight, _ => seq(GridWidth, _ => Empty))
  }

  /** Two grids that agree on every cell are the same grid. */
  lemma GridExt(a: Grid, b: Grid)
    requires forall c | InRange(c) :: At(a, c) == At(b, c)
    ensures a == b
  {
    forall y | 0 <= y < GridHeight
      ensures a[y] == b[y]
    {
      forall x | 0 <= x < GridWidth
        ensures a[y][x] == b[y][x]
      {
        assert At(a, Coord(x, y)) == At(b, Coord(x, y));
      }
    }
  }

  /** Writing back a cell's old kind undoes an update of that cell. */
  lemma UpdateRestores(g: Grid, c: Coord, t: Tile)
    requires InRange(c)
    ensures Update(Update(g, c, t), c, At(g, c)) == g
  {
    GridExt(Update(Update(g, c, t), c, At(g, c)), g);
  }

  function Abs(v: int): (r: nat)
    ensures r == v || r == -v
  {
    if v < 0 then -v else v
  }

  /** Orthogonal adjacency, in the form the source tests it: one coordinate
      differs by exactly one and the other is equal. */
  predicate Adjacent(a: Coord, b: Coord) {
    (Abs(a.x - b.x) == 1 && a.y == b.y) || (Abs(a.y - b.y) == 1 && a.x == b.x)
  }

  /** The four orthogonal neighbours in the source's order: up, down, left,
      right. They may lie outside the grid. */
  function Neighbors(c: Coord): (ns: seq<Coord>)
    ensures |ns| == 4
    ensures forall d :: d in ns <==> Adjacent(c, d)
  {
    [Coord(c.x, c.y - 1), Coord(c.x, c.y + 1), Coord(c.x - 1, c.y), Coord(c.x + 1, c.y)]
  }

  /** Some entry of `tiles` (in range or not) is orthogonally adjacent to `c`. */
  predicate NextToAny(c: Coord, tiles: seq<Coord>) {
    exists i | 0 <= i < |tiles| :: Adjacent(tiles[i], c)
  }

  /** A cell on the outer ring of the grid. */
  predicate IsBorder(c: Coord) {
    c.x == 0 || c.x == GridWidth - 1 || c.y == 0 || c.y == GridHeight - 1
  }

  predicate IsCorner(c: Coord) {
    (c.x == 0 || c.x == GridWidth - 1) && (c.y == 0 || c.y == GridHeight - 1)
  }

  predicate Distinct(s: seq<Coord>) {
    forall i, j | 0 <= i < j < |s| :: s[i] != s[j]
  }
}
