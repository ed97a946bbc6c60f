/** The per-start worker of a calculation (main.go:550-648) and the
    master's finalisation (main.go:760-790), without the goroutines: the
    lengths are tried in order, the progress callbacks of each length are
    folded into that length's best, and the bests are folded into the
    worker's overall best and the calculation's shared best.

    The stop channel and the "calc id still current" check are both
    monotone events, seen as `Signal`s: once the stop is closed or the calc
    id has moved on, every later check sees it. */
module Worker {
  import opened Board
  import opened Forests
  import opened Choices
  import opened Leaves
  import opened Search
  import opened Planner
  import opened Lengths

  /** How one length test ended, as the worker tells errors apart: no
      error, the "search stopped by user" error, any other error. */
  datatype Outcome = Ok | Stopped | OtherError

  function OutcomeOf(s: Status): (o: Outcome)
    ensures o == Ok <==> s == Found
    ensures o == Stopped <==> s == StoppedByUser
  {
    match s
    case Found => Ok
    case StoppedByUser => Stopped
    case InvalidStart => OtherError
    case NoProfitablePath => OtherError
  }

  /** The worker's "replace only on strictly greater profit" step. */
  function Pick(cur: Solution, s: Solution): Solution {
    if s.profit > cur.profit then s else cur
  }

  /** `r` is what repeated strict-improvement picks over `cs` give from
      `init`: nothing in `cs` beats it, and it is `init` or the first
      candidate reaching its profit, which beats `init`. */
  predicate FirstBest(init: Solution, cs: seq<Solution>, r: Solution) {
    && r.profit >= init.profit
    && (forall i | 0 <= i < |cs| :: cs[i].profit <= r.profit)
    && (r == init ||
        exists i | 0 <= i < |cs| ::
          cs[i] == r && init.profit < r.profit && forall j | 0 <= j < i :: cs[j].profit < r.profit)
  }

  lemma FirstBestCons(init: Solution, c: Solution, cs: seq<Solution>, r: Solution)
    requires FirstBest(Pick(init, c), cs, r)
    ensures FirstBest(init, [c] + cs, r)
  {
    var all := [c] + cs;
    forall i | 0 <= i < |all|
      ensures all[i].profit <= r.profit
    {
      if i > 0 {
        assert all[i] == cs[i - 1];
      }
    }
    if r != init {
      if c.profit > init.profit && r == c {
        assert all[0] == r;
      } else {
        var i :| 0 <= i < |cs| && cs[i] == r && Pick(init, c).profit < r.profit
          && forall j | 0 <= j < i :: cs[j].profit < r.profit;
        assert all[i + 1] == r;
        forall j | 0 <= j < i + 1
          ensures all[j].profit < r.profit
        {
          if j > 0 {
            assert all[j] == cs[j - 1];
          }
        }
      }
    }
  }

  /** The length's progress callback (main.go:585-594): the per-length best
      starts at "nothing found" and takes every callback solution that
      beats it. */
  function PerLengthBest(init: Solution, cbs: seq<Solution>): (r: Solution)
    ensures FirstBest(init, cbs, r)
    decreases |cbs|
  {
    if |cbs| == 0 then init
    else
      var r := PerLengthBest(Pick(init, cbs[0]), cbs[1..]);
      FirstBestCons(init, cbs[0], cbs[1..], r);
      assert [cbs[0]] + cbs[1..] == cbs;
      r
  }

  /** Callbacks that keep improving on `init` leave the last one as the
      length's best. */
  lemma ImprovingLastWins(init: Solution, cbs: seq<Solution>)
    requires forall i | 0 <= i < |cbs| :: init.profit < cbs[i].profit
    requires forall i, j | 0 <= i < j < |cbs| :: cbs[i].profit < cbs[j].profit
    ensures |cbs| == 0 ==> PerLengthBest(init, cbs) == init
    ensures |cbs| > 0 ==> PerLengthBest(init, cbs) == cbs[|cbs| - 1]
  {
  }

  /** A leaf of the search for that length, with its own profit and grid. */
  ghost predicate ScoredLeaf(ps: SearchParams, g: Grid, start: Coord, sol: Solution) {
    Leaf(ps, g, start, sol.path) && sol.profit == LeafProfit(g, sol.path) && sol.grid == LeafGrid(g, sol.path)
  }

  /** What the worker learns from one length test: the outcome and the
      length's best. */
  datatype LengthReport = LengthReport(length: int, outcome: Outcome, best: Solution)

  /** What a report says of the search it came from: an error other than
      the stop happens only for a non-Empty start; a length that ends
      without error has the best leaf of that length as its best; any
      length's best is a scored leaf or "nothing found". */
  ghost predicate Faithful(road: Grid, start: Coord, noCrossAdjacency: bool, rep: LengthReport) {
    var ps := SearchParams(rep.length, noCrossAdjacency);
    && InRange(start)
    && (rep.outcome == OtherError <==> At(road, start) != Empty)
    && (rep.outcome == Ok ==> BestLeaf(ps, road, start, rep.best))
    && (rep.best == Unsolved(road) || ScoredLeaf(ps, road, start, rep.best))
  }

  /** The search a length test runs, given the length bound and the stop
      signal it starts with. */
  type Searcher = (int, Signal) -> SearchResult

  /** What the worker relies on of the search: it does not invent or undo
      a stop, it reports "stopped" only once the stop is visible, and
      without a stop it never reports one. */
  ghost predicate KeepsStopPromises(search: Searcher) {
    forall len: int, s: Signal ::
      && Later(s, search(len, s).stop)
      && (search(len, s).status == StoppedByUser ==> search(len, s).stop.Fired())
      && (s == Never ==> search(len, s).status != StoppedByUser)
  }

  /** The worker's search: FindOptimalRiverAndForests on a fresh copy of
      the road layout from the worker's start (main.go:597-599). */
  function PlannerSearch(road: Grid, start: Coord, noCrossAdjacency: bool): (search: Searcher)
    requires InRange(start)
    ensures KeepsStopPromises(search)
  {
    (len: int, s: Signal) => FindOptimal(road, start, len, noCrossAdjacency, s)
  }

  /** One length test: the search with that length bound, its callbacks
      folded into the length's best. */
  function TestLength(search: Searcher, road: Grid, len: int, stop: Signal): (r: (LengthReport, Signal))
    requires KeepsStopPromises(search)
    ensures r.0.length == len
    ensures Later(stop, r.1)
    ensures r.0.outcome == Stopped ==> r.1.Fired()
    ensures stop == Never ==> r.0.outcome != Stopped
  {
    var res := search(len, stop);
    (LengthReport(len, OutcomeOf(res.status), PerLengthBest(Unsolved(road), res.callbacks)), res.stop)
  }

  /** Every length the worker tries (at least 5) reports faithfully on its
      search. */
  lemma TestLengthFaithful(road: Grid, start: Coord, noCrossAdjacency: bool, len: int, stop: Signal)
    requires InRange(start) && len >= MinRiverLength
    ensures Faithful(road, start, noCrossAdjacency, TestLength(PlannerSearch(road, start, noCrossAdjacency), road, len, stop).0)
  {
    var res := FindOptimal(road, start, len, noCrossAdjacency, stop);
    assert PlannerSearch(road, start, noCrossAdjacency)(len, stop) == res;
    CallbacksImprove(road, start, len, noCrossAdjacency, stop);
    FoundIsBestLeaf(road, start, len, noCrossAdjacency, stop);
    NoProfitOnlyWithoutRoom(road, start, len, noCrossAdjacency, stop);
    ImprovingLastWins(Unsolved(road), res.callbacks);
  }

  /** A length test counts towards the overall best unless it ended with
      an error other than the stop (main.go:611-624). */
  predicate Counts(rep: LengthReport) {
    rep.outcome != OtherError
  }

  function Candidates(reps: seq<LengthReport>): (cs: seq<Solution>)
    ensures |cs| <= |reps|
  {
    if |reps| == 0 then []
    else (if Counts(reps[0]) then [reps[0].best] else []) + Candidates(reps[1..])
  }

  /** A shared best worth drawing: a path and a profit of at least zero. */
  predicate Showable(s: Solution) {
    s.profit >= 0 && |s.path| > 0
  }

  /** The worker's own best, the calculation's shared best, the grid on
      screen, the reports of the lengths tried so far, and the two
      signals. */
  datatype WorkerState = WorkerState(
    overall: Solution, shared: Solution, display: Grid,
    reports: seq<LengthReport>, stop: Signal, stale: Signal)

  /** Why the worker returned. */
  datatype WorkerExit = AllLengthsDone | StopSeen | Superseded

  /** The part of a report list that a sweep added. */
  function Added(before: WorkerState, after: WorkerState): seq<LengthReport>
    requires |before.reports| <= |after.reports|
  {
    after.reports[|before.reports|..]
  }

  /** Folding one finished length into the state under the lock
      (main.go:611-637). */
  function Absorb(ws: WorkerState, rep: LengthReport, stop: Signal, stale: Signal): (r: WorkerState)
    ensures r.reports == ws.reports + [rep]
    ensures r.overall == (if Counts(rep) then Pick(ws.overall, rep.best) else ws.overall)
    ensures r.overall.profit > ws.shared.profit ==> r.shared == r.overall
    ensures r.overall.profit <= ws.shared.profit ==> r.shared == ws.shared && r.display == ws.display
    ensures r.shared != ws.shared && Showable(r.shared) ==> r.display == r.shared.grid
    ensures r.stop == stop && r.stale == stale
  {
    var overall := if Counts(rep) then Pick(ws.overall, rep.best) else ws.overall;
    var improves := overall.profit > ws.shared.profit;
    var shared := if improves then overall else ws.shared;
    var display := if improves && Showable(shared) then shared.grid else ws.display;
    WorkerState(overall, shared, display, ws.reports + [rep], stop, stale)
  }

  function SweepRoom(len: int, userMax: int): nat {
    if len <= userMax then userMax - len + 1 else 0
  }

  /** What one pass of the length loop decides: return from the worker,
      or go on to the next length. */
  datatype Step = Exit(why: WorkerExit, ws: WorkerState) | Continue(ws: WorkerState)

  /** The report the last pass added. */
  function LastReport(ws: WorkerState): LengthReport
    requires |ws.reports| > 0
  {
    ws.reports[|ws.reports| - 1]
  }

  /** One pass of the length loop (main.go:566-645): the stop check and the
      calc-id check before the length, the length test, the calc-id check
      after it, the update under the lock, and the exit after a stopped
      length. A pass either adds no report and changes no best, or adds
      the report of the length and folds it in. */
  function LengthStep(search: Searcher, road: Grid, len: int, ws: WorkerState): (r: Step)
    requires KeepsStopPromises(search)
    ensures r.ws.reports == ws.reports ==>
      r.Exit? && r.ws.overall == ws.overall && r.ws.shared == ws.shared && r.ws.display == ws.display
    ensures r.ws.reports != ws.reports ==>
      |r.ws.reports| == |ws.reports| + 1 && LastReport(r.ws).length == len
      && r.ws == Absorb(ws, LastReport(r.ws), r.ws.stop, r.ws.stale)
    ensures r.Continue? ==> r.ws.reports != ws.reports && LastReport(r.ws).outcome != Stopped
    ensures r.Exit? && r.ws.reports != ws.reports ==> LastReport(r.ws).outcome == Stopped && r.why == StopSeen
    ensures r.Exit? ==> r.why != AllLengthsDone
    ensures Later(ws.stop, r.ws.stop) && Later(ws.stale, r.ws.stale)
    ensures r.Exit? && r.why == StopSeen ==> r.ws.stop.Fired()
    ensures r.Exit? && r.why == Superseded ==> r.ws.stale.Fired()
    ensures ws.stop == Never && ws.stale == Never ==> r.Continue?
    ensures ws.stale.Fired() ==> r.Exit? && r.ws.reports == ws.reports
  {
    var (stopped, stop1) := ws.stop.Observe();
    if stopped then Exit(StopSeen, ws.(stop := stop1))
    else
      var (stale1, staleRest) := ws.stale.Observe();
      if stale1 then Exit(Superseded, ws.(stop := stop1, stale := staleRest))
      else
        var (rep, stop2) := TestLength(search, road, len, stop1);
        LaterTrans(ws.stop, stop1, stop2);
        var (stale2, staleRest2) := staleRest.Observe();
        LaterTrans(ws.stale, staleRest, staleRest2);
        if stale2 then Exit(Superseded, ws.(stop := stop2, stale := staleRest2))
        else
          var next := Absorb(ws, rep, stop2, staleRest2);
          if rep.outcome == Stopped then Exit(StopSeen, next) else Continue(next)
  }

  /** The report a pass adds is the length test run on the stop signal as
      the check before it left it. */
  lemma LengthStepTests(search: Searcher, road: Grid, len: int, ws: WorkerState)
    requires KeepsStopPromises(search)
    ensures var r := LengthStep(search, road, len, ws);
      r.ws.reports != ws.reports ==>
        LastReport(r.ws) == TestLength(search, road, len, ws.stop.Observe().1).0
  {
  }

  /** Reports for the lengths `len`, `len + 1`, ... in that order, none
      past `userMax`. */
  predicate Consecutive(reps: seq<LengthReport>, len: int, userMax: int) {
    forall i | 0 <= i < |reps| :: reps[i].length == len + i <= userMax
  }

  /** Only the last report may be a stopped length. */
  predicate StopOnlyLast(reps: seq<LengthReport>) {
    forall i | 0 <= i < |reps| - 1 :: reps[i].outcome != Stopped
  }

  lemma ConsecutiveCons(rep: LengthReport, reps: seq<LengthReport>, len: int, userMax: int)
    requires rep.length == len <= userMax && Consecutive(reps, len + 1, userMax)
    ensures Consecutive([rep] + reps, len, userMax)
  {
    var all := [rep] + reps;
    forall i | 0 <= i < |all|
      ensures all[i].length == len + i <= userMax
    {
      if i > 0 {
        assert all[i] == reps[i - 1];
      }
    }
  }

  lemma StopOnlyLastCons(rep: LengthReport, reps: seq<LengthReport>)
    requires rep.outcome != Stopped && StopOnlyLast(reps)
    ensures StopOnlyLast([rep] + reps)
    ensures |reps| > 0 ==> ([rep] + reps)[|reps|] == reps[|reps| - 1]
  {
    assert forall i | 0 < i <= |reps| :: ([rep] + reps)[i] == reps[i - 1];
  }

  /** The added reports of a sweep step are the new report followed by the
      rest of the sweep's. */
  lemma SweepStep(ws: WorkerState, next: WorkerState, last: WorkerState)
    requires |next.reports| == |ws.reports| + 1 && next.reports[..|ws.reports|] == ws.reports
    requires |next.reports| <= |last.reports| && last.reports[..|next.reports|] == next.reports
    ensures |ws.reports| <= |last.reports| && last.reports[..|ws.reports|] == ws.reports
    ensures Added(ws, last) == [LastReport(next)] + Added(next, last)
  {
    assert last.reports[..|ws.reports|] == last.reports[..|next.reports|][..|ws.reports|];
    assert last.reports[|ws.reports|] == next.reports[|ws.reports|];
    assert Added(ws, last)[1..] == Added(next, last);
  }

  /** The length loop from `len` on (main.go:565-646): it tries the
      lengths `len`, `len + 1`, ... in order, never past the user's
      maximum. */
  function Sweep(search: Searcher, road: Grid, userMax: int, len: int, ws: WorkerState): (r: (WorkerExit, WorkerState))
    requires KeepsStopPromises(search)
    ensures |ws.reports| <= |r.1.reports| && r.1.reports[..|ws.reports|] == ws.reports
    ensures Consecutive(Added(ws, r.1), len, userMax)
    decreases SweepRoom(len, userMax)
  {
    if len > userMax then
      assert Added(ws, ws) == [];
      (AllLengthsDone, ws)
    else
      match LengthStep(search, road, len, ws)
      case Exit(why, w) =>
        assert w.reports != ws.reports ==> Added(ws, w) == [LastReport(w)];
        assert w.reports == ws.reports ==> Added(ws, w) == [];
        (why, w)
      case Continue(w) =>
        var r := Sweep(search, road, userMax, len + 1, w);
        SweepStep(ws, w, r.1);
        ConsecutiveCons(LastReport(w), Added(w, r.1), len, userMax);
        r
  }

  /** Only the last of `reps` can be a stopped length, and if it is, the
      worker exits with `why` the stop. */
  predicate StopsLast(reps: seq<LengthReport>, why: WorkerExit) {
    && StopOnlyLast(reps)
    && (|reps| > 0 && reps[|reps| - 1].outcome == Stopped ==> why == StopSeen)
  }

  /** The reports of a sweep: only the last can be a stopped length, and
      the worker then exits for the stop. */
  lemma {:induction false} SweepExits(search: Searcher, road: Grid, userMax: int, len: int, ws: WorkerState)
    requires KeepsStopPromises(search)
    ensures var r := Sweep(search, road, userMax, len, ws);
      StopsLast(Added(ws, r.1), r.0)
    decreases SweepRoom(len, userMax)
  {
    if len > userMax {
      assert Added(ws, ws) == [];
    } else {
      match LengthStep(search, road, len, ws)
      case Exit(why, w) =>
        assert w.reports != ws.reports ==> Added(ws, w) == [LastReport(w)];
        assert w.reports == ws.reports ==> Added(ws, w) == [];
      case Continue(w) =>
        SweepExits(search, road, userMax, len + 1, w);
        var r := Sweep(search, road, userMax, len + 1, w);
        StopsLastStep(ws, w, r.1, r.0);
    }
  }

  /** A length that did not stop, followed by a sweep whose only stopped
      length is its last. */
  lemma StopsLastStep(ws: WorkerState, w: WorkerState, last: WorkerState, why: WorkerExit)
    requires |w.reports| == |ws.reports| + 1 && w.reports[..|ws.reports|] == ws.reports
    requires |w.reports| <= |last.reports| && last.reports[..|w.reports|] == w.reports
    requires LastReport(w).outcome != Stopped
    requires StopsLast(Added(w, last), why)
    ensures |ws.reports| <= |last.reports|
    ensures StopsLast(Added(ws, last), why)
  {
    SweepStep(ws, w, last);
    StopOnlyLastCons(LastReport(w), Added(w, last));
  }

  /** A worker that runs every length has one report per length. */
  lemma {:induction false} SweepCount(search: Searcher, road: Grid, userMax: int, len: int, ws: WorkerState)
    requires KeepsStopPromises(search)
    ensures var r := Sweep(search, road, userMax, len, ws);
      r.0 == AllLengthsDone ==> |Added(ws, r.1)| == SweepRoom(len, userMax)
    decreases SweepRoom(len, userMax)
  {
    if len > userMax {
      assert Added(ws, ws) == [];
    } else {
      match LengthStep(search, road, len, ws)
      case Exit(why, w) =>
      case Continue(w) =>
        SweepCount(search, road, userMax, len + 1, w);
        var r := Sweep(search, road, userMax, len + 1, w);
        SweepStep(ws, w, r.1);
    }
  }

  /** The worker's exits and the two signals: a stop or a new calculation
      is never undone; the worker exits for one only once it is visible;
      with neither it runs every length; a calculation already superseded
      at the start changes nothing. */
  lemma {:induction false} SweepSignals(search: Searcher, road: Grid, userMax: int, len: int, ws: WorkerState)
    requires KeepsStopPromises(search)
    ensures var r := Sweep(search, road, userMax, len, ws);
      && Later(ws.stop, r.1.stop) && Later(ws.stale, r.1.stale)
      && (r.0 == StopSeen ==> r.1.stop.Fired())
      && (r.0 == Superseded ==> r.1.stale.Fired())
      && (ws.stop == Never && ws.stale == Never ==> r.0 == AllLengthsDone)
      && (ws.stale.Fired() ==>
            r.1.overall == ws.overall && r.1.shared == ws.shared && r.1.display == ws.display && r.1.reports == ws.reports)
    decreases SweepRoom(len, userMax)
  {
    if len <= userMax {
      match LengthStep(search, road, len, ws)
      case Exit(why, w) =>
      case Continue(w) =>
        SweepSignals(search, road, userMax, len + 1, w);
        var r := Sweep(search, road, userMax, len + 1, w);
        LaterTrans(ws.stop, w.stop, r.1.stop);
        LaterTrans(ws.stale, w.stale, r.1.stale);
    }
  }


  lemma CandidatesCons(rep: LengthReport, reps: seq<LengthReport>)
    ensures Candidates([rep] + reps) == (if Counts(rep) then [rep.best] else []) + Candidates(reps)
  {
    assert ([rep] + reps)[1..] == reps;
  }

  ghost predicate AllFaithful(road: Grid, start: Coord, noCrossAdjacency: bool, reps: seq<LengthReport>) {
    forall i | 0 <= i < |reps| :: Faithful(road, start, noCrossAdjacency, reps[i])
  }

  lemma FaithfulCons(road: Grid, start: Coord, noCrossAdjacency: bool, rep: LengthReport, reps: seq<LengthReport>)
    requires Faithful(road, start, noCrossAdjacency, rep) && AllFaithful(road, start, noCrossAdjacency, reps)
    ensures AllFaithful(road, start, noCrossAdjacency, [rep] + reps)
  {
    forall i | 0 <= i < |[rep] + reps|
      ensures Faithful(road, start, noCrossAdjacency, ([rep] + reps)[i])
    {
      if i > 0 {
        assert ([rep] + reps)[i] == reps[i - 1];
      }
    }
  }

  /** A search all of whose length tests from 5 on report faithfully. */
  ghost predicate FaithfulSearch(search: Searcher, road: Grid, start: Coord, noCrossAdjacency: bool) {
    && KeepsStopPromises(search)
    && forall len: int, s: Signal | len >= MinRiverLength ::
         Faithful(road, start, noCrossAdjacency, TestLength(search, road, len, s).0)
  }

  /** FindOptimalRiverAndForests, as the worker calls it, is such a search. */
  lemma PlannerSearchFaithful(road: Grid, start: Coord, noCrossAdjacency: bool)
    requires InRange(start)
    ensures FaithfulSearch(PlannerSearch(road, start, noCrossAdjacency), road, start, noCrossAdjacency)
  {
    forall len: int, s: Signal | len >= MinRiverLength
      ensures Faithful(road, start, noCrossAdjacency, TestLength(PlannerSearch(road, start, noCrossAdjacency), road, len, s).0)
    {
      TestLengthFaithful(road, start, noCrossAdjacency, len, s);
    }
  }

  /** Every length the sweep tried reports faithfully on its search. */
  lemma {:induction false} SweepFaithful(search: Searcher, road: Grid, start: Coord, noCrossAdjacency: bool,
                                         userMax: int, len: int, ws: WorkerState)
    requires FaithfulSearch(search, road, start, noCrossAdjacency) && len >= MinRiverLength
    ensures AllFaithful(road, start, noCrossAdjacency, Added(ws, Sweep(search, road, userMax, len, ws).1))
    decreases SweepRoom(len, userMax)
  {
    if len > userMax {
      assert Added(ws, ws) == [];
    } else {
      LengthStepTests(search, road, len, ws);
      assert Faithful(road, start, noCrossAdjacency, TestLength(search, road, len, ws.stop.Observe().1).0);
      match LengthStep(search, road, len, ws)
      case Exit(why, w) =>
        assert w.reports != ws.reports ==> Added(ws, w) == [LastReport(w)];
        assert w.reports == ws.reports ==> Added(ws, w) == [];
      case Continue(w) =>
        SweepFaithful(search, road, start, noCrossAdjacency, userMax, len + 1, w);
        var r := Sweep(search, road, userMax, len + 1, w);
        SweepStep(ws, w, r.1);
        FaithfulCons(road, start, noCrossAdjacency, LastReport(w), Added(w, r.1));
    }
  }

  /** One pass's effect on the overall best, carried over the rest of the
      sweep. */
  lemma OverallCons(init: Solution, rep: LengthReport, reps: seq<LengthReport>, r: Solution)
    requires FirstBest(if Counts(rep) then Pick(init, rep.best) else init, Candidates(reps), r)
    ensures FirstBest(init, Candidates([rep] + reps), r)
  {
    CandidatesCons(rep, reps);
    if Counts(rep) {
      FirstBestCons(init, rep.best, Candidates(reps), r);
    } else {
      assert Candidates([rep] + reps) == Candidates(reps);
    }
  }

  /** The worker's overall best takes a length's best only when it is
      strictly better, so ties keep the earlier (shorter) length, and it
      ends no worse than any length that counted. */
  lemma {:induction false} SweepOverall(search: Searcher, road: Grid, userMax: int, len: int, ws: WorkerState)
    requires KeepsStopPromises(search)
    ensures var r := Sweep(search, road, userMax, len, ws);
      FirstBest(ws.overall, Candidates(Added(ws, r.1)), r.1.overall)
    decreases SweepRoom(len, userMax)
  {
    if len > userMax {
      assert Added(ws, ws) == [];
    } else {
      match LengthStep(search, road, len, ws)
      case Exit(why, w) =>
        if w.reports != ws.reports {
          assert Added(ws, w) == [LastReport(w)] + [];
          OverallCons(ws.overall, LastReport(w), [], w.overall);
        } else {
          assert Added(ws, w) == [];
        }
      case Continue(w) =>
        SweepOverall(search, road, userMax, len + 1, w);
        var r := Sweep(search, road, userMax, len + 1, w);
        SweepStep(ws, w, r.1);
        OverallCons(ws.overall, LastReport(w), Added(w, r.1), r.1.overall);
    }
  }

  /** The shared best is replaced only by a strictly better one, which is
      then the worker's own best; it stays no worse than the worker's best;
      and the screen shows it whenever the worker changed it to a
      drawable one. */
  lemma {:induction false} SweepShared(search: Searcher, road: Grid, userMax: int, len: int, ws: WorkerState)
    requires KeepsStopPromises(search)
    requires ws.shared.profit >= ws.overall.profit
    ensures var r := Sweep(search, road, userMax, len, ws);
      && (r.1.shared == ws.shared || r.1.shared.profit > ws.shared.profit)
      && (r.1.shared == ws.shared || r.1.shared == r.1.overall)
      && r.1.shared.profit >= r.1.overall.profit
      && (r.1.shared == ws.shared ==> r.1.display == ws.display)
      && (r.1.shared != ws.shared && Showable(r.1.shared) ==> r.1.display == r.1.shared.grid)
    decreases SweepRoom(len, userMax)
  {
    if len <= userMax {
      match LengthStep(search, road, len, ws)
      case Exit(why, w) =>
      case Continue(w) =>
        SweepShared(search, road, userMax, len + 1, w);
        SweepOverall(search, road, userMax, len + 1, w);
    }
  }

  /** runPathCalculationWorker: the sweep from the minimum length with
      "nothing found" as the worker's best. The shared best was reset to
      "nothing found" when the calculation began and only grows, so it is
      never below that. */
  function RunWorker(road: Grid, start: Coord, userMax: int, noCrossAdjacency: bool,
                     shared: Solution, display: Grid, stop: Signal, stale: Signal): (r: (WorkerExit, WorkerState))
    requires InRange(start) && shared.profit >= NoProfit
    ensures r.1.overall == Unsolved(road) || Candidates(r.1.reports) != []
    ensures FirstBest(Unsolved(road), Candidates(r.1.reports), r.1.overall)
    ensures r.1.shared.profit >= r.1.overall.profit
  {
    var search := PlannerSearch(road, start, noCrossAdjacency);
    var ws := WorkerState(Unsolved(road), shared, display, [], stop, stale);
    var r := Sweep(search, road, userMax, MinRiverLength, ws);
    assert Added(ws, r.1) == r.1.reports;
    SweepOverall(search, road, userMax, MinRiverLength, ws);
    SweepShared(search, road, userMax, MinRiverLength, ws);
    r
  }

  /** With no stop and no newer calculation, a sweep from 5 over a
      faithful search on an Empty start tries every length up to the
      user's maximum, and its best beats every leaf of every one of those
      searches. */
  lemma {:induction false} SweepBeatsEveryLength(search: Searcher, road: Grid, start: Coord, noCrossAdjacency: bool,
                                                 userMax: int, ws: WorkerState)
    requires FaithfulSearch(search, road, start, noCrossAdjacency)
    requires InRange(start) && At(road, start) == Empty
    requires ws.reports == [] && ws.stop == Never && ws.stale == Never
    ensures var r := Sweep(search, road, userMax, MinRiverLength, ws);
      && r.0 == AllLengthsDone
      && |r.1.reports| == SweepRoom(MinRiverLength, userMax)
      && forall len, l | MinRiverLength <= len <= userMax && Leaf(SearchParams(len, noCrossAdjacency), road, start, l) ::
           LeafProfit(road, l) <= r.1.overall.profit
  {
    var r := Sweep(search, road, userMax, MinRiverLength, ws);
    assert Added(ws, r.1) == r.1.reports;
    SweepExits(search, road, userMax, MinRiverLength, ws);
    SweepCount(search, road, userMax, MinRiverLength, ws);
    SweepSignals(search, road, userMax, MinRiverLength, ws);
    SweepOverall(search, road, userMax, MinRiverLength, ws);
    SweepFaithful(search, road, start, noCrossAdjacency, userMax, MinRiverLength, ws);
    forall len, l | MinRiverLength <= len <= userMax && Leaf(SearchParams(len, noCrossAdjacency), road, start, l)
      ensures LeafProfit(road, l) <= r.1.overall.profit
    {
      var i := len - MinRiverLength;
      assert r.1.reports[i].length == len;
      assert i < |r.1.reports| - 1 || r.1.reports[|r.1.reports| - 1] == r.1.reports[i];
      ReportBeatsLeaf(road, start, noCrossAdjacency, r.1.reports, i, ws.overall, r.1.overall, l);
    }
  }

  /** A length that ended without error bounds its leaves, and the overall
      best bounds that length's best. */
  lemma ReportBeatsLeaf(road: Grid, start: Coord, noCrossAdjacency: bool, reps: seq<LengthReport>, i: int,
                        init: Solution, best: Solution, l: seq<Coord>)
    requires 0 <= i < |reps| && AllFaithful(road, start, noCrossAdjacency, reps)
    requires InRange(start) && At(road, start) == Empty && reps[i].outcome != Stopped
    requires FirstBest(init, Candidates(reps), best)
    requires Leaf(SearchParams(reps[i].length, noCrossAdjacency), road, start, l)
    ensures LeafProfit(road, l) <= best.profit
  {
    assert Faithful(road, start, noCrossAdjacency, reps[i]);
    CandidateOf(reps, i);
  }

  /** With no stop and no newer calculation, a worker on an Empty start
      tries every length from 5 to the user's maximum, and its best beats
      every leaf of every one of those searches. */
  lemma WorkerBeatsEveryLength(road: Grid, start: Coord, userMax: int, noCrossAdjacency: bool,
                               shared: Solution, display: Grid)
    requires InRange(start) && At(road, start) == Empty && shared.profit >= NoProfit
    ensures var r := RunWorker(road, start, userMax, noCrossAdjacency, shared, display, Never, Never);
      && r.0 == AllLengthsDone
      && |r.1.reports| == SweepRoom(MinRiverLength, userMax)
      && forall len, l | MinRiverLength <= len <= userMax && Leaf(SearchParams(len, noCrossAdjacency), road, start, l) ::
           LeafProfit(road, l) <= r.1.overall.profit
  {
    PlannerSearchFaithful(road, start, noCrossAdjacency);
    SweepBeatsEveryLength(PlannerSearch(road, start, noCrossAdjacency), road, start, noCrossAdjacency, userMax,
                          WorkerState(Unsolved(road), shared, display, [], Never, Never));
  }

  /** A counted report's best is among the candidates. */
  lemma {:induction false} CandidateOf(reps: seq<LengthReport>, i: int)
    requires 0 <= i < |reps| && Counts(reps[i])
    ensures reps[i].best in Candidates(reps)
    decreases |reps|
  {
    if i > 0 {
      CandidateOf(reps[1..], i - 1);
    }
  }

  /** What the master leaves when the calculation ends: the final solution,
      the length shown as used, the grid on screen, and the stop signal. */
  datatype Final = Final(solution: Solution, maxLenUsed: int, display: Grid, stop: Signal)

  /** The master goroutine's deferred block (main.go:760-790). A master
      whose calc id is no longer current changes nothing (`prev`);
      otherwise the shared best becomes the final solution with the road
      layout filled in for a nil path, and the stop channel is closed. */
  function Finalize(isCurrent: bool, shared: Solution, road: Grid, prev: Final): (r: Final)
    ensures !isCurrent ==> r == prev
    ensures isCurrent && shared.path == [] ==> r.solution == Unsolved(road) && r.maxLenUsed == 0
    ensures isCurrent && shared.path != [] ==> r.solution == shared && r.maxLenUsed == |shared.path|
    ensures isCurrent ==> r.display == r.solution.grid && r.stop.Fired()
  {
    if !isCurrent then prev
    else
      var sol := if shared.path == [] then shared.(grid := road, profit := NoProfit) else shared;
      var maxLenUsed := if sol.path != [] then |sol.path| else 0;
      var display := if sol.path != [] then sol.grid else road;
      Final(sol, maxLenUsed, display, After(0))
  }

  /** A finished calculation with a found path shows the path's grid and
      says it used the path's own length, which is at most the user's
      maximum when the path came from a worker. */
  lemma {:induction false} FinalShowsWorkerBest(road: Grid, start: Coord, userMax: int, noCrossAdjacency: bool,
                                               display: Grid, stop: Signal, stale: Signal, prev: Final)
    requires InRange(start)
    ensures var w := RunWorker(road, start, userMax, noCrossAdjacency, Unsolved(road), display, stop, stale);
      var f := Finalize(true, w.1.shared, road, prev);
      w.1.shared.path != [] ==> f.display == w.1.shared.grid && 1 <= f.maxLenUsed <= userMax
  {
    var w := RunWorker(road, start, userMax, noCrossAdjacency, Unsolved(road), display, stop, stale);
    var search := PlannerSearch(road, start, noCrossAdjacency);
    var ws := WorkerState(Unsolved(road), Unsolved(road), display, [], stop, stale);
    var r := Sweep(search, road, userMax, MinRiverLength, ws);
    SweepShared(search, road, userMax, MinRiverLength, ws);
    PlannerSearchFaithful(road, start, noCrossAdjacency);
    SweepFaithful(search, road, start, noCrossAdjacency, userMax, MinRiverLength, ws);
    if w.1.shared.path != [] {
      assert w.1.shared == w.1.overall;
      assert w.1.overall != Unsolved(road);
      var cs := Candidates(r.1.reports);
      var i :| 0 <= i < |cs| && cs[i] == w.1.overall && Unsolved(road).profit < w.1.overall.profit
        && forall j | 0 <= j < i :: cs[j].profit < w.1.overall.profit;
      CandidateFrom(r.1.reports, i);
      var k :| 0 <= k < |r.1.reports| && Counts(r.1.reports[k]) && r.1.reports[k].best == cs[i];
      var rep := r.1.reports[k];
      assert Faithful(road, start, noCrossAdjacency, rep);
      AdmissibleLength(SearchParams(rep.length, noCrossAdjacency), road, start, rep.best.path);
    }
  }

  /** Every candidate is the best of some counted report. */
  lemma {:induction false} CandidateFrom(reps: seq<LengthReport>, k: int)
    requires 0 <= k < |Candidates(reps)|
    ensures exists i | 0 <= i < |reps| :: Counts(reps[i]) && reps[i].best == Candidates(reps)[k]
    decreases |reps|
  {
    if Counts(reps[0]) && k == 0 {
      assert reps[0].best == Candidates(reps)[0];
    } else {
      var k' := if Counts(reps[0]) then k - 1 else k;
      assert Candidates(reps)[k] == Candidates(reps[1..])[k'];
      CandidateFrom(reps[1..], k');
      var i :| 0 <= i < |reps[1..]| && Counts(reps[1..][i]) && reps[1..][i].best == Candidates(reps[1..])[k'];
      assert reps[i + 1] == reps[1..][i];
    }
  }
}
