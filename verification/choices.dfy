/** How the search picks the continuations of a partial river: the U-turn,
    cross-adjacency and Empty filters, the interior-before-border prune, and
    the scored ordering of the surviving moves (game/game.go:206-342). */
module Choices {
  import opened Board

  /** The per-invocation parameters of one search. */
  datatype SearchParams = SearchParams(maxLen: int, noCrossAdjacency: bool)

  /** Some orthogonal neighbour of `next`, other than `current`, is an
      in-range River cell. */
  predicate CrossAdjacent(g: Grid, current: Coord, next: Coord) {
    exists a | a in Neighbors(next) :: a != current && InRange(a) && At(g, a) == River
  }

  /** The three filters a neighbour of the path's last tile must pass, in the
      source's order: not the tile two back (U-turn), not touching other
      River (when cross-adjacency is disabled), and an in-range Empty cell. */
  predicate Admits(ps: SearchParams, g: Grid, pw: seq<Coord>, next: Coord)
    requires |pw| > 0
  {
    && !(|pw| >= 2 && next == pw[|pw| - 2])
    && !(ps.noCrossAdjacency && CrossAdjacent(g, pw[|pw| - 1], next))
    && InRange(next) && At(g, next) == Empty
  }

  function InteriorChoices(ps: SearchParams, g: Grid, pw: seq<Coord>, ns: seq<Coord>): (r: seq<Coord>)
    requires |pw| > 0
    ensures |r| <= |ns|
  {
    if |ns| == 0 then []
    else
      (if Admits(ps, g, pw, ns[0]) && !IsBorder(ns[0]) then [ns[0]] else [])
        + InteriorChoices(ps, g, pw, ns[1..])
  }

  function BorderChoices(ps: SearchParams, g: Grid, pw: seq<Coord>, ns: seq<Coord>): (r: seq<Coord>)
    requires |pw| > 0
    ensures |r| <= |ns|
  {
    if |ns| == 0 then []
    else
      (if Admits(ps, g, pw, ns[0]) && IsBorder(ns[0]) then [ns[0]] else [])
        + BorderChoices(ps, g, pw, ns[1..])
  }

  predicate HasInteriorChoice(ps: SearchParams, g: Grid, pw: seq<Coord>)
    requires |pw| > 0
  {
    exists n | n in Neighbors(pw[|pw| - 1]) :: Admits(ps, g, pw, n) && !IsBorder(n)
  }

  /** The consideration set: the admitted interior neighbours when there is
      any, otherwise the admitted border neighbours. */
  function Consider(ps: SearchParams, g: Grid, pw: seq<Coord>): (r: seq<Coord>)
    requires |pw| > 0
    ensures |r| <= 4
    ensures forall n | n in r :: InRange(n)
  {
    var ns := Neighbors(pw[|pw| - 1]);
    var interior := InteriorChoices(ps, g, pw, ns);
    InteriorChoicesMembers(ps, g, pw, ns);
    BorderChoicesMembers(ps, g, pw, ns);
    if |interior| > 0 then interior else BorderChoices(ps, g, pw, ns)
  }

  /** The interior list holds exactly the admitted interior neighbours. */
  lemma {:induction false} InteriorChoicesMembers(ps: SearchParams, g: Grid, pw: seq<Coord>, ns: seq<Coord>)
    requires |pw| > 0
    ensures forall n :: n in InteriorChoices(ps, g, pw, ns) <==> n in ns && Admits(ps, g, pw, n) && !IsBorder(n)
    decreases |ns|
  {
    if |ns| > 0 {
      InteriorChoicesMembers(ps, g, pw, ns[1..]);
      assert forall n :: n in ns <==> n == ns[0] || n in ns[1..];
    }
  }

  /** The border list holds exactly the admitted border neighbours. */
  lemma {:induction false} BorderChoicesMembers(ps: SearchParams, g: Grid, pw: seq<Coord>, ns: seq<Coord>)
    requires |pw| > 0
    ensures forall n :: n in BorderChoices(ps, g, pw, ns) <==> n in ns && Admits(ps, g, pw, n) && IsBorder(n)
    decreases |ns|
  {
    if |ns| > 0 {
      BorderChoicesMembers(ps, g, pw, ns[1..]);
      assert forall n :: n in ns <==> n == ns[0] || n in ns[1..];
    }
  }

  /** The consideration set holds exactly the admitted neighbours, interior
      ones only when there is any. */
  lemma ConsiderMembers(ps: SearchParams, g: Grid, pw: seq<Coord>)
    requires |pw| > 0
    ensures forall n :: n in Consider(ps, g, pw) <==>
      n in Neighbors(pw[|pw| - 1]) && Admits(ps, g, pw, n)
      && (!IsBorder(n) || !HasInteriorChoice(ps, g, pw))
  {
    var ns := Neighbors(pw[|pw| - 1]);
    InteriorChoicesMembers(ps, g, pw, ns);
    BorderChoicesMembers(ps, g, pw, ns);
    var interior := InteriorChoices(ps, g, pw, ns);
    if |interior| > 0 {
      assert interior[0] in interior;
    }
  }


  /** A continuation with the three keys it is ordered by. */
  datatype ScoredMove = ScoredMove(coord: Coord, isStraight: bool, adjacencyBonus: int, newForestTilesCount: int)

  /** How many path tiles `spot` is orthogonally adjacent to. */
  function TouchCount(spot: Coord, pw: seq<Coord>): (k: nat)
    ensures k <= |pw|
  {
    if |pw| == 0 then 0
    else (if Adjacent(spot, pw[0]) then 1 else 0) + TouchCount(spot, pw[1..])
  }

  /** For each in-range Empty neighbour of the move (a future forest spot),
      the number of path tiles it touches, summed. */
  function AdjacencyBonus(g: Grid, spots: seq<Coord>, pw: seq<Coord>): (b: nat)
    ensures b <= |spots| * |pw|
  {
    if |spots| == 0 then 0
    else
      MulSucc(|spots| - 1, |pw|);
      (if InRange(spots[0]) && At(g, spots[0]) == Empty then TouchCount(spots[0], pw) else 0)
        + AdjacencyBonus(g, spots[1..], pw)
  }

  lemma MulSucc(a: nat, b: nat)
    ensures (a + 1) * b == b + a * b
  {
  }

  /** The number of in-range Empty cells among `spots`. */
  function NewForestCount(g: Grid, spots: seq<Coord>): (k: nat)
    ensures k <= |spots|
  {
    if |spots| == 0 then 0
    else (if InRange(spots[0]) && At(g, spots[0]) == Empty then 1 else 0) + NewForestCount(g, spots[1..])
  }

  /** The move continues in the direction of the previous step. */
  predicate IsStraight(pw: seq<Coord>, choice: Coord)
    requires |pw| > 0
  {
    var current := pw[|pw| - 1];
    |pw| >= 2
      && choice.x - current.x == current.x - pw[|pw| - 2].x
      && choice.y - current.y == current.y - pw[|pw| - 2].y
  }

  function ScoreMove(g: Grid, pw: seq<Coord>, choice: Coord): ScoredMove
    requires |pw| > 0
  {
    var spots := Neighbors(choice);
    ScoredMove(choice, IsStraight(pw, choice), AdjacencyBonus(g, spots, pw), NewForestCount(g, spots))
  }

  function ScoreMoves(g: Grid, pw: seq<Coord>, choices: seq<Coord>): (r: seq<ScoredMove>)
    requires |pw| > 0
    ensures |r| == |choices|
    ensures forall i | 0 <= i < |r| :: r[i].coord == choices[i]
  {
    if |choices| == 0 then [] else [ScoreMove(g, pw, choices[0])] + ScoreMoves(g, pw, choices[1..])
  }

  /** The sort's less-than: higher bonus first, then more new forest, then
      turns before straight moves. */
  predicate RanksBefore(a: ScoredMove, b: ScoredMove) {
    if a.adjacencyBonus != b.adjacencyBonus then a.adjacencyBonus > b.adjacencyBonus
    else if a.newForestTilesCount != b.newForestTilesCount then a.newForestTilesCount > b.newForestTilesCount
    else !a.isStraight && b.isStraight
  }

  predicate SortedMoves(ms: seq<ScoredMove>) {
    forall i, j | 0 <= i < j < |ms| :: !RanksBefore(ms[j], ms[i])
  }

  /** "Does not rank before" is transitive: the keys form a total preorder. */
  lemma NotBeforeTrans(a: ScoredMove, b: ScoredMove, c: ScoredMove)
    requires !RanksBefore(a, b) && !RanksBefore(b, c)
    ensures !RanksBefore(a, c)
  {
  }

  /** A move no earlier move ranks after can go at the end. */
  lemma AppendSorted(s: seq<ScoredMove>, x: ScoredMove)
    requires SortedMoves(s)
    requires forall i | 0 <= i < |s| :: !RanksBefore(x, s[i])
    ensures SortedMoves(s + [x])
  {
    forall i, j | 0 <= i < j < |s + [x]|
      ensures !RanksBefore((s + [x])[j], (s + [x])[i])
    {
      if j < |s| {
        assert (s + [x])[j] == s[j] && (s + [x])[i] == s[i];
      }
    }
  }

  /** A move that does not rank before the last of a sorted list ranks
      before none of it. */
  lemma NotBeforeLast(sorted: seq<ScoredMove>, m: ScoredMove)
    requires SortedMoves(sorted)
    requires |sorted| == 0 || !RanksBefore(m, sorted[|sorted| - 1])
    ensures forall i | 0 <= i < |sorted| :: !RanksBefore(m, sorted[i])
  {
    forall i | 0 <= i < |sorted|
      ensures !RanksBefore(m, sorted[i])
    {
      if i < |sorted| - 1 {
        NotBeforeTrans(m, sorted[|sorted| - 1], sorted[i]);
      }
    }
  }

  /** After `m` is inserted into `init`, the move `last` that `m` ranks
      before and that ranks before nothing in `init` still ranks before
      nothing. */
  lemma LastAfterFront(init: seq<ScoredMove>, m: ScoredMove, last: ScoredMove, front: seq<ScoredMove>)
    requires multiset(front) == multiset(init) + multiset{m}
    requires forall i | 0 <= i < |init| :: !RanksBefore(last, init[i])
    requires RanksBefore(m, last)
    ensures forall i | 0 <= i < |front| :: !RanksBefore(last, front[i])
  {
    forall i | 0 <= i < |front|
      ensures !RanksBefore(last, front[i])
    {
      var x := front[i];
      assert x in multiset(front);
      if x != m {
        assert x in multiset(init);
        var k :| 0 <= k < |init| && init[k] == x;
      }
    }
  }

  /** One insertion step: the new move moves left past every move it ranks
      strictly before, so equal keys keep their order. */
  function InsertMove(sorted: seq<ScoredMove>, m: ScoredMove): (r: seq<ScoredMove>)
    requires SortedMoves(sorted)
    ensures multiset(r) == multiset(sorted) + multiset{m}
    ensures SortedMoves(r)
    decreases |sorted|
  {
    if |sorted| == 0 || !RanksBefore(m, sorted[|sorted| - 1]) then
      NotBeforeLast(sorted, m);
      AppendSorted(sorted, m);
      sorted + [m]
    else
      var init := sorted[..|sorted| - 1];
      var last := sorted[|sorted| - 1];
      assert sorted == init + [last];
      assert forall i | 0 <= i < |init| :: !RanksBefore(last, init[i]) by {
        forall i | 0 <= i < |init|
          ensures !RanksBefore(last, init[i])
        {
          assert init[i] == sorted[i];
        }
      }
      var front := InsertMove(init, m);
      LastAfterFront(init, m, last, front);
      AppendSorted(front, last);
      front + [last]
  }

  /** The sort of the scored moves: Go's sort.Slice on at most four elements
      is an insertion sort, which this reproduces. */
  function SortMoves(ms: seq<ScoredMove>): (r: seq<ScoredMove>)
    ensures multiset(r) == multiset(ms)
    ensures SortedMoves(r)
    decreases |ms|
  {
    if |ms| == 0 then []
    else
      assert ms == ms[..|ms| - 1] + [ms[|ms| - 1]];
      InsertMove(SortMoves(ms[..|ms| - 1]), ms[|ms| - 1])
  }

  function Coords(ms: seq<ScoredMove>): (r: seq<Coord>)
    ensures |r| == |ms|
    ensures forall i | 0 <= i < |ms| :: r[i] == ms[i].coord
  {
    if |ms| == 0 then [] else [ms[0].coord] + Coords(ms[1..])
  }

  /** The exploration order: the consideration set, scored and sorted. */
  function OrderMoves(g: Grid, pw: seq<Coord>, choices: seq<Coord>): (r: seq<Coord>)
    requires |pw| > 0
    ensures forall c :: c in r <==> c in choices
    ensures |r| == |choices|
  {
    var scored := ScoreMoves(g, pw, choices);
    var sorted := SortMoves(scored);
    var r := Coords(sorted);
    assert |sorted| == |scored| by {
      assert |multiset(sorted)| == |multiset(scored)|;
    }
    forall c | c in choices
      ensures c in r
    {
      var i :| 0 <= i < |choices| && choices[i] == c;
      assert scored[i] in multiset(sorted);
      var j :| 0 <= j < |sorted| && sorted[j] == scored[i];
    }
    forall c | c in r
      ensures c in choices
    {
      var j :| 0 <= j < |r| && r[j] == c;
      assert sorted[j] in multiset(scored);
      var i :| 0 <= i < |scored| && scored[i] == sorted[j];
    }
    r
  }
}
