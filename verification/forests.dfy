/** Forest placement and scoring for a finished river path.

    Profit is kept as an exact integer in percent: a Forest cell with k
    adjacent River cells is worth 2 * (2 * k) percent (the source's
    0.02 * 2 * k), and the "no solution" sentinel -1.0 is -100. */
module Forests {
  import opened Board

  /** The base profit of one forest tile, in percent. */
  const BaseForestPercent := 2

  /** The source's -1.0 "no solution yet" profit, in percent. */
  const NoProfit := -100

  /** The set the source builds as a map: every in-range Empty cell
      orthogonally adjacent to some path tile. */
  function ForestSpots(g: Grid, path: seq<Coord>): (spots: set<Coord>)
    ensures forall c :: c in spots <==> InRange(c) && At(g, c) == Empty && NextToAny(c, path)
    decreases |path|
  {
    if |path| == 0 then {}
    else
      var here := set n | n in Neighbors(path[0]) && InRange(n) && At(g, n) == Empty;
      var rest := ForestSpots(g, path[1..]);
      assert forall c :: NextToAny(c, path) <==> Adjacent(path[0], c) || NextToAny(c, path[1..]) by {
        forall c | NextToAny(c, path[1..])
          ensures NextToAny(c, path)
        {
          var i :| 0 <= i < |path[1..]| && Adjacent(path[1..][i], c);
          assert Adjacent(path[i + 1], c);
        }
        forall c | NextToAny(c, path) && !Adjacent(path[0], c)
          ensures NextToAny(c, path[1..])
        {
          var i :| 0 <= i < |path| && Adjacent(path[i], c);
          assert Adjacent(path[1..][i - 1], c);
        }
      }
      here + rest
  }

  /** The grid with Forest on exactly the forest spots of `path`; every
      other cell is as in `g`. */
  function PlaceForests(g: Grid, path: seq<Coord>): (r: Grid)
    ensures forall c | InRange(c) ::
      At(r, c) == if At(g, c) == Empty && NextToAny(c, path) then Forest else At(g, c)
  {
    var spots := ForestSpots(g, path);
    seq(GridHeight, y requires 0 <= y < GridHeight =>
      seq(GridWidth, x requires 0 <= x < GridWidth => if Coord(x, y) in spots then Forest else g[y][x]))
  }

  /** Number of in-range River cells among `ns`. */
  function RiversAmong(g: Grid, ns: seq<Coord>): (k: nat)
    ensures k <= |ns|
  {
    if |ns| == 0 then 0
    else (if InRange(ns[0]) && At(g, ns[0]) == River then 1 else 0) + RiversAmong(g, ns[1..])
  }

  /** One cell's share of the profit: 2% doubled per adjacent River cell,
      for Forest cells only. */
  function CellProfit(g: Grid, c: Coord): nat
    requires InRange(c)
  {
    if At(g, c) == Forest then
      var k := RiversAmong(g, Neighbors(c));
      if k > 0 then BaseForestPercent * (2 * k) else 0
    else 0
  }

  /** The first n cells of row y, summed. */
  function RowProfit(g: Grid, y: int, n: int): nat
    requires 0 <= y < GridHeight && 0 <= n <= GridWidth
  {
    if n == 0 then 0 else RowProfit(g, y, n - 1) + CellProfit(g, Coord(n - 1, y))
  }

  /** The first n rows, summed. */
  function RowsProfit(g: Grid, n: int): nat
    requires 0 <= n <= GridHeight
  {
    if n == 0 then 0 else RowsProfit(g, n - 1) + RowProfit(g, n - 1, |g[n - 1]|)
  }

  /** The profit of a grid: the sum over every Forest cell of the grid, old
      or new. */
  function ForestProfit(g: Grid): nat {
    RowsProfit(g, |g|)
  }

  /** calculateProfitAndPlaceForests (game/game.go:393-445). The contract
      only names its two parts; their meaning is stated cell by cell by
      PlaceForests' contract and by the CellProfit sum ForestProfit is. */
  function ProfitAndForests(g: Grid, path: seq<Coord>): (r: (int, Grid))
    ensures r.1 == PlaceForests(g, path)
    ensures r.0 == ForestProfit(r.1) && r.0 >= 0
  {
    var forested := PlaceForests(g, path);
    (ForestProfit(forested), forested)
  }

  /** A grid without River cells earns nothing. */
  lemma NoRiverNoProfit(g: Grid)
    requires forall c | InRange(c) :: At(g, c) != River
    ensures ForestProfit(g) == 0
  {
    forall y, x | 0 <= y < GridHeight && 0 <= x < GridWidth
      ensures CellProfit(g, Coord(x, y)) == 0
    {
      NoRiversAmong(g, Neighbors(Coord(x, y)));
    }
    RowsZero(g, |g|);
  }

  lemma {:induction false} NoRiversAmong(g: Grid, ns: seq<Coord>)
    requires forall c | InRange(c) :: At(g, c) != River
    ensures RiversAmong(g, ns) == 0
    decreases |ns|
  {
    if |ns| > 0 {
      NoRiversAmong(g, ns[1..]);
    }
  }

  lemma {:induction false} RowsZero(g: Grid, n: int)
    requires 0 <= n <= GridHeight
    requires forall y, x | 0 <= y < GridHeight && 0 <= x < GridWidth :: CellProfit(g, Coord(x, y)) == 0
    ensures RowsProfit(g, n) == 0
  {
    if n > 0 {
      RowZero(g, n - 1, |g[n - 1]|);
      RowsZero(g, n - 1);
    }
  }

  lemma {:induction false} RowZero(g: Grid, y: int, n: int)
    requires 0 <= y < GridHeight && 0 <= n <= GridWidth
    requires forall x | 0 <= x < GridWidth :: CellProfit(g, Coord(x, y)) == 0
    ensures RowProfit(g, y, n) == 0
  {
    if n > 0 {
      RowZero(g, y, n - 1);
    }
  }
}
