/** The depth-first search of exploreAndEvaluateRecursive
    (game/game.go:185-381) over one shared working grid, one shared best
    solution and a stop channel.

    The stop channel is seen only through non-blocking polls, and once it is
    closed every later poll sees it closed. It is modelled as a `Signal`
    that fires at some later poll and stays fired. */
module Search {
  import opened Board
  import opened Forests
  import opened Choices

  /** When the stop request becomes visible: never, or at the poll after the
      next `n` ones. */
  datatype Signal = Never | After(n: nat) {
    predicate Fired() {
      this == After(0)
    }

    /** One non-blocking poll: whether it sees the stop, and the signal as
        seen by the polls after it. */
    function Observe(): (r: (bool, Signal))
      ensures r.0 <==> Fired()
      ensures r.0 ==> r.1.Fired()
      ensures Later(this, r.1)
      ensures this == Never ==> r.1 == Never
    {
      match this
      case Never => (false, Never)
      case After(k) => if k == 0 then (true, After(0)) else (false, After(k - 1))
    }
  }

  /** `b` is what `a` can become after some polls: a stop never appears out
      of nowhere and never goes away. */
  predicate Later(a: Signal, b: Signal) {
    match a
    case Never => b == Never
    case After(k) => b.After? && b.n <= k
  }

  lemma LaterTrans(a: Signal, b: Signal, c: Signal)
    requires Later(a, b) && Later(b, c)
    ensures Later(a, c)
  {
  }

  /** A stop seen once is seen at every later poll. */
  lemma LaterKeepsFired(a: Signal, b: Signal)
    requires Later(a, b) && a.Fired()
    ensures b.Fired()
  {
  }

  /** The neighbour loop's per-iteration polls: up to `k` polls, stopping at
      the first that sees the stop. */
  function Poll(s: Signal, k: nat): (r: (bool, Signal))
    ensures r.0 <==> s.After? && s.n < k
    ensures Later(s, r.1)
    ensures r.0 ==> r.1.Fired()
    ensures !r.0 ==> (s.After? ==> r.1 == After(s.n - k))
    decreases k
  {
    if k == 0 then (false, s)
    else
      var (seen, rest) := s.Observe();
      if seen then (true, rest)
      else
        var r := Poll(rest, k - 1);
        LaterTrans(s, rest, r.1);
        r
  }

  /** A recorded solution: the river, its profit in percent and the grid
      with river and forests. The empty path stands for the source's nil. */
  datatype Solution = Solution(path: seq<Coord>, profit: int, grid: Grid)

  /** Everything the search shares between calls: the working grid, the best
      solution so far, every solution handed to the progress callback (in
      order), and the stop signal. */
  datatype SearchState = SearchState(grid: Grid, best: Solution, trace: seq<Solution>, stop: Signal)

  /** How `b` can differ from `a` in its record of solutions: the trace only
      grows; every new entry beats the old best and the entry before it; the
      best is the last new entry, or unchanged when there is none. */
  predicate Advances(a: SearchState, b: SearchState) {
    && |a.trace| <= |b.trace| && b.trace[..|a.trace|] == a.trace
    && b.best.profit >= a.best.profit
    && (forall i | |a.trace| <= i < |b.trace| :: a.best.profit < b.trace[i].profit <= b.best.profit)
    && (forall i, j | |a.trace| <= i < j < |b.trace| :: b.trace[i].profit < b.trace[j].profit)
    && (|b.trace| == |a.trace| ==> b.best == a.best)
    && (|b.trace| > |a.trace| ==> b.best == b.trace[|b.trace| - 1])
  }

  lemma AdvancesTrans(a: SearchState, b: SearchState, c: SearchState)
    requires Advances(a, b) && Advances(b, c)
    ensures Advances(a, c)
  {
    assert c.trace[..|a.trace|] == c.trace[..|b.trace|][..|a.trace|];
    forall i | |a.trace| <= i < |b.trace|
      ensures c.trace[i] == b.trace[i]
    {
      assert c.trace[..|b.trace|][i] == b.trace[i];
    }
    if |c.trace| == |b.trace| && |b.trace| > |a.trace| {
      assert c.best == b.best == b.trace[|b.trace| - 1] == c.trace[|c.trace| - 1];
    }
  }

  /** Depth still available below a path of length n. */
  function Room(ps: SearchParams, n: int): nat {
    if n < ps.maxLen then ps.maxLen - n else 0
  }

  /** exploreAndEvaluateRecursive: poll the stop, give up past the length
      bound or on a non-Empty tile, otherwise mark the tile River, expand and
      evaluate, and put the tile back. */
  function Explore(ps: SearchParams, tile: Coord, path: seq<Coord>, st: SearchState): (r: SearchState)
    requires InRange(tile)
    ensures r.grid == st.grid
    ensures Later(st.stop, r.stop)
    ensures Advances(st, r)
    decreases Room(ps, |path|), 3, 0
  {
    var (seen, stop) := st.stop.Observe();
    if seen || |path| >= ps.maxLen || At(st.grid, tile) != Empty then st.(stop := stop)
    else
      var original := At(st.grid, tile);
      var marked := st.(grid := Update(st.grid, tile, River), stop := stop);
      var r := Expand(ps, path + [tile], marked);
      var restored := r.(grid := Update(r.grid, tile, original));
      UpdateRestores(st.grid, tile, River);
      LaterTrans(st.stop, stop, r.stop);
      AdvancesSameRecord(marked, r, st, restored);
      restored
  }

  /** Advances looks only at the trace and the best solution. */
  lemma AdvancesSameRecord(a: SearchState, b: SearchState, a': SearchState, b': SearchState)
    requires Advances(a, b)
    requires a'.trace == a.trace && a'.best == a.best && b'.trace == b.trace && b'.best == b.best
    ensures Advances(a', b')
  {
  }

  /** The body after marking: below the bound, poll once per neighbour,
      collect the consideration set and explore it in ranked order; then
      evaluate. A stop seen by a neighbour poll skips the evaluation. */
  function Expand(ps: SearchParams, pw: seq<Coord>, st: SearchState): (r: SearchState)
    requires 1 <= |pw| <= ps.maxLen
    ensures r.grid == st.grid
    ensures Later(st.stop, r.stop)
    ensures Advances(st, r)
    decreases Room(ps, |pw| - 1), 2, 0
  {
    if |pw| < ps.maxLen then
      var (seen, stop) := Poll(st.stop, 4);
      var polled := st.(stop := stop);
      AdvancesSameRecord(st, st, st, polled);
      if seen then polled
      else
        var choices := Consider(ps, st.grid, pw);
        if |choices| > 0 then
          var moves := OrderMoves(st.grid, pw, choices);
          var r := ExploreMoves(ps, moves, pw, polled);
          var r' := Finish(ps, pw, true, r);
          LaterTrans(st.stop, stop, r.stop);
          LaterTrans(st.stop, r.stop, r'.stop);
          AdvancesTrans(st, r, r');
          r'
        else
          var r := Finish(ps, pw, false, polled);
          LaterTrans(st.stop, stop, r.stop);
          AdvancesTrans(st, polled, r);
          r
    else Finish(ps, pw, false, st)
  }

  /** The loop over the ranked moves: each child in turn, with no poll in
      between (each child polls first itself). */
  function ExploreMoves(ps: SearchParams, ms: seq<Coord>, pw: seq<Coord>, st: SearchState): (r: SearchState)
    requires 1 <= |pw| < ps.maxLen
    requires forall m | m in ms :: InRange(m)
    ensures r.grid == st.grid
    ensures Later(st.stop, r.stop)
    ensures Advances(st, r)
    decreases Room(ps, |pw| - 1), 1, |ms|
  {
    if |ms| == 0 then st
    else
      var first := Explore(ps, ms[0], pw, st);
      var r := ExploreMoves(ps, ms[1..], pw, first);
      LaterTrans(st.stop, first.stop, r.stop);
      AdvancesTrans(st, first, r);
      r
  }

  /** The tail of the call: poll; a path that was not extended or is at the
      bound is scored, and a strictly better score is recorded and reported
      unless a last poll sees the stop. */
  function Finish(ps: SearchParams, pw: seq<Coord>, made: bool, st: SearchState): (r: SearchState)
    ensures r.grid == st.grid
    ensures Later(st.stop, r.stop)
    ensures Advances(st, r)
    ensures |r.trace| <= |st.trace| + 1
    ensures |r.trace| > |st.trace| ==>
      (!made || |pw| == ps.maxLen) && r.best == Solution(pw, ForestProfit(PlaceForests(st.grid, pw)), PlaceForests(st.grid, pw))
    ensures !r.stop.Fired() && (!made || |pw| == ps.maxLen) ==>
      r.best.profit >= ForestProfit(PlaceForests(st.grid, pw))
  {
    var (seen, stop) := st.stop.Observe();
    if seen then st.(stop := stop)
    else if !made || |pw| == ps.maxLen then
      var (profit, forested) := ProfitAndForests(st.grid, pw);
      if profit > st.best.profit then
        var (late, stop') := stop.Observe();
        LaterTrans(st.stop, stop, stop');
        if late then st.(stop := stop')
        else
          var sol := Solution(pw, profit, forested);
          st.(best := sol, trace := st.trace + [sol], stop := stop')
      else st.(stop := stop)
    else st.(stop := stop)
  }
}
