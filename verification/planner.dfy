/** FindOptimalRiverAndForests (game/game.go:152-182): the start check,
    the search from the start tile, and the four ways the call ends. */
module Planner {
  import opened Board
  import opened Forests
  import opened Choices
  import opened Leaves
  import opened Search
  import opened Optimality

  /** The error the call ends with, or Found for a nil error. */
  datatype Status = Found | InvalidStart | StoppedByUser | NoProfitablePath

  /** The returned solution, how the call ended, the solutions handed to the
      progress callback in order, and the stop signal after the call. */
  datatype SearchResult = SearchResult(solution: Solution, status: Status, callbacks: seq<Solution>, stop: Signal)

  /** The "nothing found" solution: nil path, profit -1.0, the given grid. */
  function Unsolved(g: Grid): Solution {
    Solution([], NoProfit, g)
  }

  /** `sol` is a leaf of the search from `start` with that leaf's profit
      and grid, and no leaf scores more. */
  ghost predicate BestLeaf(ps: SearchParams, g: Grid, start: Coord, sol: Solution) {
    && Leaf(ps, g, start, sol.path)
    && sol.profit == LeafProfit(g, sol.path)
    && sol.grid == LeafGrid(g, sol.path)
    && forall l | Leaf(ps, g, start, l) :: LeafProfit(g, l) <= sol.profit
  }

  /** Every callback is a scored leaf, each beats the one before it, and all
      beat the initial -1.0. */
  ghost predicate ImprovingLeaves(ps: SearchParams, g: Grid, start: Coord, cbs: seq<Solution>) {
    && (forall i | 0 <= i < |cbs| ::
          Leaf(ps, g, start, cbs[i].path) && cbs[i].profit == LeafProfit(g, cbs[i].path)
          && cbs[i].grid == LeafGrid(g, cbs[i].path) && NoProfit < cbs[i].profit)
    && (forall i, j | 0 <= i < j < |cbs| :: cbs[i].profit < cbs[j].profit)
  }

  function FindOptimal(g: Grid, start: Coord, maxLen: int, noCrossAdjacency: bool, stop: Signal): (r: SearchResult)
    requires InRange(start)
    ensures r.status == InvalidStart <==> At(g, start) != Empty
    ensures r.status == InvalidStart ==> r.solution == Unsolved(g) && r.callbacks == [] && r.stop == stop
    ensures r.status == NoProfitablePath ==> r.solution == Unsolved(g)
    ensures Later(stop, r.stop)
    ensures r.status == StoppedByUser ==> r.stop.Fired()
    ensures stop == Never ==> r.status != StoppedByUser
  {
    var ps := SearchParams(maxLen, noCrossAdjacency);
    if At(g, start) != Empty then SearchResult(Unsolved(g), InvalidStart, [], stop)
    else
      var r := Explore(ps, start, [], SearchState(g, Unsolved(g), [], stop));
      var (seen, rest) := r.stop.Observe();
      LaterTrans(stop, r.stop, rest);
      if seen then SearchResult(r.best, StoppedByUser, r.trace, rest)
      else if r.best.profit < 0 then SearchResult(Unsolved(g), NoProfitablePath, r.trace, rest)
      else SearchResult(r.best, Found, r.trace, rest)
  }

  /** Every leaf of the search from `start` lies below the one-tile path. */
  lemma LeavesBelowStart(ps: SearchParams, g: Grid, start: Coord, l: seq<Coord>)
    requires Admissible(ps, g, start, l)
    ensures Extends(l, [start])
  {
    PrefixAdmissible(ps, g, start, l, 1);
  }

  /** The run of the search under the call, with what the optimality proof
      says of it. */
  lemma RootRun(g: Grid, start: Coord, maxLen: int, noCrossAdjacency: bool, stop: Signal)
    requires InRange(start) && At(g, start) == Empty
    ensures var ps := SearchParams(maxLen, noCrossAdjacency);
      var st := SearchState(g, Unsolved(g), [], stop);
      var r := Explore(ps, start, [], st);
      && NewSound(ps, g, start, [start], st, r)
      && (!r.stop.Fired() ==> forall l | Leaf(ps, g, start, l) :: LeafProfit(g, l) <= r.best.profit)
  {
    var ps := SearchParams(maxLen, noCrossAdjacency);
    var st := SearchState(g, Unsolved(g), [], stop);
    assert st.grid == MarkRiver(g, []);
    assert [] + [start] == [start];
    ExploreCorrect(ps, g, start, start, [], st);
    var r := Explore(ps, start, [], st);
    if !r.stop.Fired() {
      forall l | Leaf(ps, g, start, l)
        ensures LeafProfit(g, l) <= r.best.profit
      {
        LeavesBelowStart(ps, g, start, l);
      }
    }
  }

  /** `sol` is a best leaf, with a well-formed river and its forest
      profit, and it is the last of the callbacks `cbs`. */
  ghost predicate FoundWell(ps: SearchParams, g: Grid, start: Coord, sol: Solution, cbs: seq<Solution>) {
    && BestLeaf(ps, g, start, sol)
    && IsRiverPath(ps, g, start, sol.path)
    && BorderOnlyWhenForced(ps, g, sol.path)
    && sol.profit == ForestProfit(sol.grid)
    && |cbs| > 0 && cbs[|cbs| - 1] == sol
  }

  /** A Found result is a best leaf: a river of the required shape whose
      profit no leaf of the search exceeds, reported last to the callback. */
  lemma {:induction false} FoundIsBestLeaf(g: Grid, start: Coord, maxLen: int, noCrossAdjacency: bool, stop: Signal)
    requires InRange(start)
    ensures var ps := SearchParams(maxLen, noCrossAdjacency);
      var r := FindOptimal(g, start, maxLen, noCrossAdjacency, stop);
      r.status == Found ==> FoundWell(ps, g, start, r.solution, r.callbacks)
  {
    var ps := SearchParams(maxLen, noCrossAdjacency);
    var res := FindOptimal(g, start, maxLen, noCrossAdjacency, stop);
    if res.status == Found {
      var r := Explore(ps, start, [], SearchState(g, Unsolved(g), [], stop));
      var (seen, rest) := r.stop.Observe();
      assert !seen && res == SearchResult(r.best, Found, r.trace, rest);
      RootFound(g, start, maxLen, noCrossAdjacency, stop);
    }
  }

  /** When the root run ends unstopped with a non-negative best, that best
      is a best leaf and the last entry of the trace. */
  lemma RootFound(g: Grid, start: Coord, maxLen: int, noCrossAdjacency: bool, stop: Signal)
    requires InRange(start) && At(g, start) == Empty
    ensures var ps := SearchParams(maxLen, noCrossAdjacency);
      var r := Explore(ps, start, [], SearchState(g, Unsolved(g), [], stop));
      !r.stop.Fired() && r.best.profit >= 0 ==> FoundWell(ps, g, start, r.best, r.trace)
  {
    var ps := SearchParams(maxLen, noCrossAdjacency);
    var st := SearchState(g, Unsolved(g), [], stop);
    var r := Explore(ps, start, [], st);
    if !r.stop.Fired() && r.best.profit >= 0 {
      RootRun(g, start, maxLen, noCrossAdjacency, stop);
      assert |r.trace| > 0 && r.best == r.trace[|r.trace| - 1];
      assert Reported(ps, g, start, [start], r.best);
      ReportedBestIsBestLeaf(ps, g, start, r.best);
    }
  }

  /** A reported leaf that no leaf beats is a best leaf of the required
      shape. */
  lemma ReportedBestIsBestLeaf(ps: SearchParams, g: Grid, start: Coord, sol: Solution)
    requires Reported(ps, g, start, [start], sol)
    requires forall l | Leaf(ps, g, start, l) :: LeafProfit(g, l) <= sol.profit
    ensures BestLeaf(ps, g, start, sol)
    ensures IsRiverPath(ps, g, start, sol.path) && BorderOnlyWhenForced(ps, g, sol.path)
    ensures sol.profit == ForestProfit(sol.grid)
  {
    AdmissibleShape(ps, g, start, sol.path);
  }

  /** Whatever the outcome, the callbacks are improving leaves. */
  lemma {:induction false} CallbacksImprove(g: Grid, start: Coord, maxLen: int, noCrossAdjacency: bool, stop: Signal)
    requires InRange(start)
    ensures var r := FindOptimal(g, start, maxLen, noCrossAdjacency, stop);
      ImprovingLeaves(SearchParams(maxLen, noCrossAdjacency), g, start, r.callbacks)
  {
    var ps := SearchParams(maxLen, noCrossAdjacency);
    var res := FindOptimal(g, start, maxLen, noCrossAdjacency, stop);
    if At(g, start) == Empty {
      var st := SearchState(g, Unsolved(g), [], stop);
      var r := Explore(ps, start, [], st);
      RootRun(g, start, maxLen, noCrossAdjacency, stop);
      assert res.callbacks == r.trace;
      forall i | 0 <= i < |r.trace|
        ensures Leaf(ps, g, start, r.trace[i].path) && r.trace[i].profit == LeafProfit(g, r.trace[i].path)
        ensures r.trace[i].grid == LeafGrid(g, r.trace[i].path) && NoProfit < r.trace[i].profit
      {
        assert Reported(ps, g, start, [start], r.trace[i]);
      }
    }
  }

  /** "No profitable path" happens exactly when the length bound admits no
      tile at all, unless a stop intervened. */
  lemma {:induction false} NoProfitOnlyWithoutRoom(g: Grid, start: Coord, maxLen: int, noCrossAdjacency: bool, stop: Signal)
    requires InRange(start)
    ensures var r := FindOptimal(g, start, maxLen, noCrossAdjacency, stop);
      r.status == NoProfitablePath ==> maxLen < 1 && r.callbacks == []
    ensures var r := FindOptimal(g, start, maxLen, noCrossAdjacency, stop);
      At(g, start) == Empty && maxLen < 1 && r.status != StoppedByUser ==> r.status == NoProfitablePath
  {
    var ps := SearchParams(maxLen, noCrossAdjacency);
    if At(g, start) == Empty {
      var st := SearchState(g, Unsolved(g), [], stop);
      var r := Explore(ps, start, [], st);
      RootRun(g, start, maxLen, noCrossAdjacency, stop);
      if maxLen >= 1 && !r.stop.Fired() {
        assert Admissible(ps, g, start, [start]);
        var l := LeafExists(ps, g, start, [start]);
        assert LeafProfit(g, l) >= 0;
      }
      if maxLen < 1 {
        assert Explore(ps, start, [], st).best == Unsolved(g);
      }
    }
  }
}
