/** What the search computes, stated against the search tree of `Leaves`:
    every reported solution is a scored leaf (soundness), and when no stop
    was seen the best solution is at least as good as every leaf below the
    explored path (completeness). */
module Optimality {
  import opened Board
  import opened Forests
  import opened Choices
  import opened Leaves
  import opened Search

  predicate Extends(l: seq<Coord>, pw: seq<Coord>) {
    |l| >= |pw| && l[..|pw|] == pw
  }

  /** `sol` is a leaf below `pw`, with that leaf's profit and grid. */
  predicate Reported(ps: SearchParams, g0: Grid, start: Coord, pw: seq<Coord>, sol: Solution) {
    && Leaf(ps, g0, start, sol.path)
    && Extends(sol.path, pw)
    && sol.profit == LeafProfit(g0, sol.path)
    && sol.grid == LeafGrid(g0, sol.path)
  }

  /** Every entry `b` added to the trace of `a` is reported below `pw`. */
  predicate NewSound(ps: SearchParams, g0: Grid, start: Coord, pw: seq<Coord>, a: SearchState, b: SearchState) {
    forall i | |a.trace| <= i < |b.trace| :: Reported(ps, g0, start, pw, b.trace[i])
  }

  /** No leaf below `pw` beats `best`. */
  ghost predicate Covers(ps: SearchParams, g0: Grid, start: Coord, pw: seq<Coord>, best: int) {
    forall l | Leaf(ps, g0, start, l) && Extends(l, pw) :: LeafProfit(g0, l) <= best
  }

  /** How the search enters a tile: the root enters `start` with the empty
      path; every other call enters a tile of the consideration set of an
      admissible path below the bound. */
  predicate Entry(ps: SearchParams, g0: Grid, start: Coord, path: seq<Coord>, tile: Coord) {
    && (|path| == 0 ==> tile == start)
    && (|path| > 0 ==>
          Admissible(ps, g0, start, path) && |path| < ps.maxLen
          && tile in Consider(ps, MarkRiver(g0, path), path))
  }

  lemma MarkRiverStep(g0: Grid, path: seq<Coord>, tile: Coord)
    requires InRange(tile)
    ensures Update(MarkRiver(g0, path), tile, River) == MarkRiver(g0, path + [tile])
  {
    assert (path + [tile])[..|path|] == path;
  }

  lemma EntryAdmissible(ps: SearchParams, g0: Grid, start: Coord, path: seq<Coord>, tile: Coord)
    requires Entry(ps, g0, start, path, tile)
    requires InRange(tile) && |path| < ps.maxLen && At(MarkRiver(g0, path), tile) == Empty
    ensures Admissible(ps, g0, start, path + [tile])
  {
    assert (path + [tile])[..|path|] == path;
  }

  /** At the root, an out-of-bound length or a non-Empty start leaves no
      admissible path at all. */
  lemma NothingBelowBlockedStart(ps: SearchParams, g0: Grid, start: Coord, l: seq<Coord>)
    requires ps.maxLen < 1 || !InRange(start) || At(g0, start) != Empty
    ensures !Admissible(ps, g0, start, l)
  {
    if Admissible(ps, g0, start, l) {
      PrefixAdmissible(ps, g0, start, l, 1);
    }
  }

  /** Below a leaf, the leaf is the only leaf. */
  lemma OnlyLeafBelowLeaf(ps: SearchParams, g0: Grid, start: Coord, pw: seq<Coord>, l: seq<Coord>)
    requires Leaf(ps, g0, start, pw)
    requires Leaf(ps, g0, start, l) && Extends(l, pw)
    ensures l == pw
  {
    if |l| > |pw| {
      LeafIsMaximal(ps, g0, start, pw, l);
    } else {
      assert l == l[..|pw|];
    }
  }

  lemma ExtendsWeaken(l: seq<Coord>, pw: seq<Coord>, m: Coord)
    requires Extends(l, pw + [m])
    ensures Extends(l, pw)
  {
    assert l[..|pw|] == l[..|pw| + 1][..|pw|];
    assert (pw + [m])[..|pw|] == pw;
  }

  lemma SoundWeaken(ps: SearchParams, g0: Grid, start: Coord, pw: seq<Coord>, m: Coord, a: SearchState, b: SearchState)
    requires NewSound(ps, g0, start, pw + [m], a, b)
    ensures NewSound(ps, g0, start, pw, a, b)
  {
    forall i | |a.trace| <= i < |b.trace|
      ensures Reported(ps, g0, start, pw, b.trace[i])
    {
      ExtendsWeaken(b.trace[i].path, pw, m);
    }
  }

  lemma SoundTrans(ps: SearchParams, g0: Grid, start: Coord, pw: seq<Coord>, a: SearchState, b: SearchState, c: SearchState)
    requires Advances(a, b) && Advances(b, c)
    requires NewSound(ps, g0, start, pw, a, b) && NewSound(ps, g0, start, pw, b, c)
    ensures NewSound(ps, g0, start, pw, a, c)
  {
    forall i | |a.trace| <= i < |b.trace|
      ensures c.trace[i] == b.trace[i]
    {
      assert c.trace[..|b.trace|][i] == b.trace[i];
    }
  }

  /** A stop seen before the end is still seen at the end. */
  lemma NotFiredEarlier(a: Signal, b: Signal)
    requires Later(a, b) && !b.Fired()
    ensures !a.Fired()
  {
  }

  lemma FinishCorrect(ps: SearchParams, g0: Grid, start: Coord, pw: seq<Coord>, made: bool, st: SearchState)
    requires st.grid == MarkRiver(g0, pw)
    requires (!made || |pw| == ps.maxLen) ==> Leaf(ps, g0, start, pw)
    ensures NewSound(ps, g0, start, pw, st, Finish(ps, pw, made, st))
    ensures var r := Finish(ps, pw, made, st);
      (!made || |pw| == ps.maxLen) && !r.stop.Fired() ==> LeafProfit(g0, pw) <= r.best.profit
  {
    var r := Finish(ps, pw, made, st);
    if |r.trace| > |st.trace| {
      assert r.trace[|st.trace|] == r.best;
      assert pw[..|pw|] == pw;
    }
  }

  lemma {:induction false} ExploreCorrect(ps: SearchParams, g0: Grid, start: Coord, tile: Coord, path: seq<Coord>, st: SearchState)
    requires InRange(tile)
    requires st.grid == MarkRiver(g0, path)
    requires Entry(ps, g0, start, path, tile)
    ensures NewSound(ps, g0, start, path + [tile], st, Explore(ps, tile, path, st))
    ensures var r := Explore(ps, tile, path, st);
      !r.stop.Fired() ==> Covers(ps, g0, start, path + [tile], r.best.profit)
    decreases Room(ps, |path|), 3, 0
  {
    var (seen, stop) := st.stop.Observe();
    var pw := path + [tile];
    if !seen && |path| < ps.maxLen && At(st.grid, tile) == Empty {
      var st1 := st.(grid := Update(st.grid, tile, River), stop := stop);
      MarkRiverStep(g0, path, tile);
      EntryAdmissible(ps, g0, start, path, tile);
      AdmissibleLength(ps, g0, start, pw);
      ExpandCorrect(ps, g0, start, pw, st1);
    } else if !seen && |path| == 0 {
      forall l | Extends(l, pw)
        ensures !Admissible(ps, g0, start, l)
      {
        NothingBelowBlockedStart(ps, g0, start, l);
      }
    } else if !seen {
      ConsiderMembers(ps, MarkRiver(g0, path), path);
    }
  }

  lemma {:induction false} ExpandCorrect(ps: SearchParams, g0: Grid, start: Coord, pw: seq<Coord>, st: SearchState)
    requires Admissible(ps, g0, start, pw) && 1 <= |pw| <= ps.maxLen
    requires st.grid == MarkRiver(g0, pw)
    ensures NewSound(ps, g0, start, pw, st, Expand(ps, pw, st))
    ensures var r := Expand(ps, pw, st);
      !r.stop.Fired() ==> Covers(ps, g0, start, pw, r.best.profit)
    decreases Room(ps, |pw| - 1), 2, 0
  {
    var r := Expand(ps, pw, st);
    if |pw| < ps.maxLen {
      var (seen, stop) := Poll(st.stop, 4);
      if !seen {
        var st2 := st.(stop := stop);
        if |Consider(ps, st.grid, pw)| > 0 {
          BranchCorrect(ps, g0, start, pw, st2);
          assert r == Finish(ps, pw, true, ExploreMoves(ps, OrderMoves(st.grid, pw, Consider(ps, st.grid, pw)), pw, st2));
        } else {
          EndCorrect(ps, g0, start, pw, st2);
        }
      }
    } else {
      EndCorrect(ps, g0, start, pw, st);
    }
  }

  /** The evaluation of a path that is a leaf. */
  lemma EndCorrect(ps: SearchParams, g0: Grid, start: Coord, pw: seq<Coord>, st: SearchState)
    requires Leaf(ps, g0, start, pw)
    requires st.grid == MarkRiver(g0, pw)
    ensures NewSound(ps, g0, start, pw, st, Finish(ps, pw, false, st))
    ensures var r := Finish(ps, pw, false, st);
      !r.stop.Fired() ==> Covers(ps, g0, start, pw, r.best.profit)
  {
    var r := Finish(ps, pw, false, st);
    FinishCorrect(ps, g0, start, pw, false, st);
    if !r.stop.Fired() {
      LeafCovered(ps, g0, start, pw, r.best.profit);
    }
  }

  /** The children of a path that is not a leaf, then its (skipped)
      evaluation. */
  lemma {:induction false} BranchCorrect(ps: SearchParams, g0: Grid, start: Coord, pw: seq<Coord>, st: SearchState)
    requires Admissible(ps, g0, start, pw) && 1 <= |pw| < ps.maxLen
    requires st.grid == MarkRiver(g0, pw)
    requires |Consider(ps, st.grid, pw)| > 0
    ensures var ms := OrderMoves(st.grid, pw, Consider(ps, st.grid, pw));
      NewSound(ps, g0, start, pw, st, Finish(ps, pw, true, ExploreMoves(ps, ms, pw, st)))
    ensures var ms := OrderMoves(st.grid, pw, Consider(ps, st.grid, pw));
      var r := Finish(ps, pw, true, ExploreMoves(ps, ms, pw, st));
      !r.stop.Fired() ==> Covers(ps, g0, start, pw, r.best.profit)
    decreases Room(ps, |pw| - 1), 1, 5
  {
    var cs := Consider(ps, st.grid, pw);
    var ms := OrderMoves(st.grid, pw, cs);
    MovesCorrect(ps, g0, start, ms, pw, st);
    var rm := ExploreMoves(ps, ms, pw, st);
    var r := Finish(ps, pw, true, rm);
    FinishCorrect(ps, g0, start, pw, true, rm);
    SoundTrans(ps, g0, start, pw, st, rm, r);
    if !r.stop.Fired() {
      NotFiredEarlier(rm.stop, r.stop);
      forall l | Leaf(ps, g0, start, l) && Extends(l, pw)
        ensures LeafProfit(g0, l) <= r.best.profit
      {
        ChildCovers(ps, g0, start, pw, ms, l, rm.best.profit);
      }
    }
  }

  /** When `pw` is a leaf scoring at most `best`, nothing below it beats
      `best`. */
  lemma LeafCovered(ps: SearchParams, g0: Grid, start: Coord, pw: seq<Coord>, best: int)
    requires Leaf(ps, g0, start, pw) && LeafProfit(g0, pw) <= best
    ensures Covers(ps, g0, start, pw, best)
  {
    forall l | Leaf(ps, g0, start, l) && Extends(l, pw)
      ensures LeafProfit(g0, l) <= best
    {
      OnlyLeafBelowLeaf(ps, g0, start, pw, l);
    }
  }

  /** A leaf strictly below a path that is not a leaf passes through one of
      the path's continuations; so if every continuation is covered, the
      leaf is. */
  lemma ChildCovers(ps: SearchParams, g0: Grid, start: Coord, pw: seq<Coord>, ms: seq<Coord>, l: seq<Coord>, best: int)
    requires Admissible(ps, g0, start, pw) && |pw| < ps.maxLen
    requires |Consider(ps, MarkRiver(g0, pw), pw)| > 0
    requires forall m | m in Consider(ps, MarkRiver(g0, pw), pw) :: m in ms
    requires forall m | m in ms :: Covers(ps, g0, start, pw + [m], best)
    requires Leaf(ps, g0, start, l) && Extends(l, pw)
    ensures LeafProfit(g0, l) <= best
  {
    LongerThanInner(ps, g0, start, pw, l);
    NextStepConsidered(ps, g0, start, l, |pw|);
    ExtendsStep(l, pw);
    var m := l[|pw|];
    assert m in ms;
  }

  /** A leaf below a path that is not a leaf is strictly longer. */
  lemma LongerThanInner(ps: SearchParams, g0: Grid, start: Coord, pw: seq<Coord>, l: seq<Coord>)
    requires 1 <= |pw| < ps.maxLen && |Consider(ps, MarkRiver(g0, pw), pw)| > 0
    requires Leaf(ps, g0, start, l) && Extends(l, pw)
    ensures |l| > |pw|
  {
    assert |l| == |pw| ==> l == pw;
  }

  lemma ExtendsStep(l: seq<Coord>, pw: seq<Coord>)
    requires Extends(l, pw) && |l| > |pw|
    ensures l[..|pw|] == pw
    ensures Extends(l, pw + [l[|pw|]])
  {
    assert l[..|pw| + 1] == l[..|pw|] + [l[|pw|]];
  }

  lemma {:induction false} MovesCorrect(ps: SearchParams, g0: Grid, start: Coord, ms: seq<Coord>, pw: seq<Coord>, st: SearchState)
    requires Admissible(ps, g0, start, pw) && 1 <= |pw| < ps.maxLen
    requires st.grid == MarkRiver(g0, pw)
    requires forall m | m in ms :: InRange(m) && m in Consider(ps, MarkRiver(g0, pw), pw)
    ensures NewSound(ps, g0, start, pw, st, ExploreMoves(ps, ms, pw, st))
    ensures var r := ExploreMoves(ps, ms, pw, st);
      !r.stop.Fired() ==> forall m | m in ms :: Covers(ps, g0, start, pw + [m], r.best.profit)
    decreases Room(ps, |pw| - 1), 1, |ms|
  {
    if |ms| > 0 {
      var first := Explore(ps, ms[0], pw, st);
      var r := ExploreMoves(ps, ms, pw, st);
      ExploreCorrect(ps, g0, start, ms[0], pw, st);
      MovesCorrect(ps, g0, start, ms[1..], pw, first);
      SoundWeaken(ps, g0, start, pw, ms[0], st, first);
      SoundTrans(ps, g0, start, pw, st, first, r);
      if !r.stop.Fired() {
        NotFiredEarlier(first.stop, r.stop);
        forall m | m in ms
          ensures Covers(ps, g0, start, pw + [m], r.best.profit)
        {
          if m != ms[0] {
            assert m in ms[1..];
          }
        }
      }
    }
  }
}
