/** Legal river sources: the Empty cells of the outer ring, corners excluded. */
module Starts {
  import opened Board

  predicate IsValidStart(g: Grid, c: Coord) {
    InRange(c) && IsBorder(c) && !IsCorner(c) && At(g, c) == Empty
  }

  /** The Empty cells among two given cells, in order. */
  function EmptyOf(g: Grid, a: Coord, b: Coord): (r: seq<Coord>)
    requires InRange(a) && InRange(b)
    ensures forall c | c in r :: c == a || c == b
    ensures a != b ==> Distinct(r)
    ensures |r| <= 2
  {
    (if At(g, a) == Empty then [a] else []) + (if At(g, b) == Empty then [b] else [])
  }

  lemma EmptyOfMembers(g: Grid, a: Coord, b: Coord)
    requires InRange(a) && InRange(b)
    ensures forall c :: c in EmptyOf(g, a, b) <==> (c == a || c == b) && At(g, c) == Empty
  {
  }

  /** The top/bottom loop from column x on: top cell, then bottom cell. */
  function RowStarts(g: Grid, x: int): (r: seq<Coord>)
    requires 1 <= x <= GridWidth - 1
    decreases GridWidth - x
  {
    if x == GridWidth - 1 then []
    else EmptyOf(g, Coord(x, 0), Coord(x, GridHeight - 1)) + RowStarts(g, x + 1)
  }

  /** The left/right loop from row y on: left cell, then right cell. */
  function ColumnStarts(g: Grid, y: int): (r: seq<Coord>)
    requires 1 <= y <= GridHeight - 1
    decreases GridHeight - y
  {
    if y == GridHeight - 1 then []
    else EmptyOf(g, Coord(0, y), Coord(GridWidth - 1, y)) + ColumnStarts(g, y + 1)
  }

  /** Joining two duplicate-free lists with no element in common keeps them
      duplicate-free. */
  lemma DistinctJoin(a: seq<Coord>, b: seq<Coord>)
    requires Distinct(a) && Distinct(b)
    requires forall c | c in a :: c !in b
    ensures Distinct(a + b)
  {
    var s := a + b;
    forall i, j | 0 <= i < j < |s|
      ensures s[i] != s[j]
    {
      if j < |a| {
        assert s[i] == a[i] && s[j] == a[j];
      } else if i >= |a| {
        assert s[i] == b[i - |a|] && s[j] == b[j - |a|];
      } else {
        assert s[i] in a && s[j] in b;
      }
    }
  }

  /** RowStarts from column x holds exactly the Empty top and bottom cells
      of columns x to 19. */
  lemma {:induction false} RowStartsMembers(g: Grid, x: int)
    requires 1 <= x <= GridWidth - 1
    ensures forall c :: c in RowStarts(g, x) <==>
      x <= c.x < GridWidth - 1 && (c.y == 0 || c.y == GridHeight - 1) && InRange(c) && At(g, c) == Empty
    decreases GridWidth - x
  {
    if x < GridWidth - 1 {
      RowStartsMembers(g, x + 1);
      var head := EmptyOf(g, Coord(x, 0), Coord(x, GridHeight - 1));
      var rest := RowStarts(g, x + 1);
      EmptyOfMembers(g, Coord(x, 0), Coord(x, GridHeight - 1));
      assert RowStarts(g, x) == head + rest;
      assert forall c :: c in head + rest <==> c in head || c in rest;
    }
  }

  /** RowStarts lists each cell once and at most two per column. */
  lemma {:induction false} RowStartsDistinct(g: Grid, x: int)
    requires 1 <= x <= GridWidth - 1
    ensures Distinct(RowStarts(g, x))
    ensures |RowStarts(g, x)| <= 2 * (GridWidth - 1 - x)
    ensures forall c | c in RowStarts(g, x) :: c.x >= x
    decreases GridWidth - x
  {
    if x < GridWidth - 1 {
      var head := EmptyOf(g, Coord(x, 0), Coord(x, GridHeight - 1));
      var rest := RowStarts(g, x + 1);
      RowStartsDistinct(g, x + 1);
      assert RowStarts(g, x) == head + rest;
      DistinctJoin(head, rest);
    }
  }

  /** ColumnStarts from row y holds exactly the Empty left and right cells
      of rows y to 10. */
  lemma {:induction false} ColumnStartsMembers(g: Grid, y: int)
    requires 1 <= y <= GridHeight - 1
    ensures forall c :: c in ColumnStarts(g, y) <==>
      y <= c.y < GridHeight - 1 && (c.x == 0 || c.x == GridWidth - 1) && InRange(c) && At(g, c) == Empty
    decreases GridHeight - y
  {
    if y < GridHeight - 1 {
      ColumnStartsMembers(g, y + 1);
      var head := EmptyOf(g, Coord(0, y), Coord(GridWidth - 1, y));
      var rest := ColumnStarts(g, y + 1);
      EmptyOfMembers(g, Coord(0, y), Coord(GridWidth - 1, y));
      assert ColumnStarts(g, y) == head + rest;
      assert forall c :: c in head + rest <==> c in head || c in rest;
    }
  }

  /** ColumnStarts lists each cell once and at most two per row. */
  lemma {:induction false} ColumnStartsDistinct(g: Grid, y: int)
    requires 1 <= y <= GridHeight - 1
    ensures Distinct(ColumnStarts(g, y))
    ensures |ColumnStarts(g, y)| <= 2 * (GridHeight - 1 - y)
    ensures forall c | c in ColumnStarts(g, y) :: c.y >= y
    decreases GridHeight - y
  {
    if y < GridHeight - 1 {
      var head := EmptyOf(g, Coord(0, y), Coord(GridWidth - 1, y));
      var rest := ColumnStarts(g, y + 1);
      ColumnStartsDistinct(g, y + 1);
      assert ColumnStarts(g, y) == head + rest;
      DistinctJoin(head, rest);
    }
  }

  /** GetValidRiverStarts (game/game.go:115-142): every Empty non-corner
      border cell, each exactly once. */
  function GetValidRiverStarts(g: Grid): (r: seq<Coord>)
    ensures forall c :: c in r <==> IsValidStart(g, c)
    ensures Distinct(r)
    ensures |r| <= 2 * (GridWidth - 2) + 2 * (GridHeight - 2)
  {
    var rows := RowStarts(g, 1);
    var cols := ColumnStarts(g, 1);
    RowStartsMembers(g, 1);
    RowStartsDistinct(g, 1);
    ColumnStartsMembers(g, 1);
    ColumnStartsDistinct(g, 1);
    StartsJoin(g, rows, cols);
    rows + cols
  }

  lemma StartsJoin(g: Grid, rows: seq<Coord>, cols: seq<Coord>)
    requires forall d :: d in rows <==> 1 <= d.x < GridWidth - 1 && (d.y == 0 || d.y == GridHeight - 1) && InRange(d) && At(g, d) == Empty
    requires forall d :: d in cols <==> 1 <= d.y < GridHeight - 1 && (d.x == 0 || d.x == GridWidth - 1) && InRange(d) && At(g, d) == Empty
    requires Distinct(rows) && Distinct(cols)
    ensures forall c :: c in rows + cols <==> IsValidStart(g, c)
    ensures Distinct(rows + cols)
  {
    forall c
      ensures c in rows + cols <==> IsValidStart(g, c)
    {
      StartMember(g, rows, cols, c);
    }
    DistinctJoin(rows, cols);
  }

  lemma StartMember(g: Grid, rows: seq<Coord>, cols: seq<Coord>, c: Coord)
    requires forall d :: d in rows <==> 1 <= d.x < GridWidth - 1 && (d.y == 0 || d.y == GridHeight - 1) && InRange(d) && At(g, d) == Empty
    requires forall d :: d in cols <==> 1 <= d.y < GridHeight - 1 && (d.x == 0 || d.x == GridWidth - 1) && InRange(d) && At(g, d) == Empty
    ensures c in rows + cols <==> IsValidStart(g, c)
  {
    assert c in rows + cols <==> c in rows || c in cols;
    if c.x == 0 || c.x == GridWidth - 1 {
      assert c !in rows;
    } else {
      assert c !in cols;
    }
  }
}
