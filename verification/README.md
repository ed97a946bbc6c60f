# River planner — a Dafny model

The program is a planning aid for a tile-based game with a 12 × 21 grid.
The player marks road tiles. Each road tile makes its orthogonal neighbours
Forbidden. The program then searches for the river that earns the most.
A river starts on a non-corner border tile and runs through Empty tiles,
one orthogonal step at a time, up to a maximum length. Forests grow on
every Empty tile next to the river. A forest earns 2 % times twice the
number of river tiles next to it.

The model covers:

- the grid and its operations: `NewGrid`, `SetRoad`, the start-tile scan
  and the forest placement and profit (`game/game.go`);
- the depth-first search `exploreAndEvaluateRecursive` and its caller
  `FindOptimalRiverAndForests`. This includes:
  - the candidate filters: the U-turn, optional cross-adjacency and
    Empty/in-range tests;
  - the preference for interior over border tiles;
  - the move scoring and ordering;
  - the stop-channel polls, the progress callback and the four ways a
    call ends;
- the sequential logic of the desktop front end (`main.go`):
  - the maximum-length controls and the bound [5, 35] they keep;
  - the road add/remove clicks;
  - one worker's sweep over the lengths 5 … max, with its per-length
    best, its own best, the shared best and the displayed grid;
  - the final hand-over to the result screen;
- the panel's line wrapper `wrapText` (`ui.go`).

Modules, one per file:

- `Board`: tiles, coordinates, the grid as a subset type, adjacency.
- `Roads`: SetRoad.
- `Starts`: GetValidRiverStarts.
- `Forests`: calculateProfitAndPlaceForests.
- `Choices`: the candidate filters, ScoredMove and the move order.
- `Leaves`: which paths the search can reach, and its leaves.
- `Search`: the recursive search as pure functions over an explicit state.
- `Optimality`: the proof that the search finds a best leaf.
- `Planner`: FindOptimalRiverAndForests.
- `Lengths`: the maximum-length controls.
- `Clicks`: the road clicks.
- `Worker`: the worker sweep and the finalisation.
- `Wrap`: wrapText.

Modelling choices:

- Profits are exact integers in percent. The source's -1.0 sentinel is
  `NoProfit` = -100.
- A nil path is the empty sequence.
- The stop channel and the "calculation id is still current" test are each
  a `Signal`. A Signal is the poll at which the event becomes visible, or
  `Never`. Once seen, it stays seen.
- The progress callback is the sequence of solutions handed to it.
- The worker gets its search as a function value (`Worker.Searcher`).
  `Worker.RunWorker` passes `FindOptimalRiverAndForests`. The lemmas
  about the sweep need only the promises that search keeps
  (`Worker.KeepsStopPromises`, `Worker.FaithfulSearch`), and
  `Worker.PlannerSearchFaithful` proves the real search keeps them.

## Model

| member | source | states |
|---|---|---|
| Board.NewGrid | game/game.go:41-47 | every cell of a fresh grid is Empty |
| Board.UpdateRestores | game/game.go:380 | writing a tile's original kind back after changing it gives the grid before the change |
| Board.Abs | game/game.go:384-389 | abs returns its argument or its negation, and never a negative number |
| Board.Neighbors | game/game.go:70-75 | the four neighbour coordinates are exactly the cells orthogonally adjacent to the tile, in or out of the grid |
| Roads.ClearRoads | game/game.go:53-59 | the clearing pass turns Road and Forbidden cells into Empty and leaves every other cell alone |
| Roads.PlaceRoads | game/game.go:62-66 | a cell becomes Road exactly when it is listed; an off-grid entry changes nothing |
| Roads.MarkForbidden | game/game.go:69-82 | an Empty cell becomes Forbidden exactly when it is next to some listed road tile; other cells keep their kind |
| Roads.SetRoad | game/game.go:50-83 | listed in-range cells are Road; every other cell is Forbidden when its cleared kind is Empty and it touches a listed tile, else its cleared kind |
| Roads.SetRoadIsLayout | game/game.go:50-83 | SetRoad depends on the road list only through the set of its entries |
| Roads.SetRoadOrderIrrelevant | game/game.go:62-82 | two lists with the same entries, in any order or with repeats, give the same grid |
| Roads.SetRoadIdempotent | game/game.go:50-83 | applying SetRoad twice with one list is applying it once |
| Roads.OffGridRoadStillForbids | game/game.go:62-81 | for any grid and road list, a listed off-grid coordinate is not placed, yet every unlisted in-range neighbour of it whose cleared kind is Empty becomes Forbidden |
| Starts.RowStartsMembers | game/game.go:119-128 | the top/bottom scan from a column on yields exactly the Empty top and bottom cells from that column up to the last before the corner |
| Starts.RowStartsDistinct | game/game.go:119-128 | the top/bottom scan lists no cell twice and at most two per column |
| Starts.ColumnStartsMembers | game/game.go:131-140 | the left/right scan from a row on yields exactly the Empty left and right cells from that row up to the last before the corner |
| Starts.ColumnStartsDistinct | game/game.go:131-140 | the left/right scan lists no cell twice and at most two per row |
| Starts.GetValidRiverStarts | game/game.go:115-142 | the result holds exactly the Empty non-corner border cells, each once, and so at most 2·19 + 2·10 of them |
| Forests.ForestSpots | game/game.go:396-407 | the candidate forest spots are exactly the in-range Empty cells next to some river tile |
| Forests.PlaceForests | game/game.go:409-411 | exactly the candidate spots become Forest; every other cell keeps its kind |
| Forests.ProfitAndForests | game/game.go:393-445 | the returned grid is the river grid with the forests placed, and the profit is the non-negative sum over its Forest cells |
| Forests.NoRiverNoProfit | game/game.go:413-443 | a grid without River cells earns nothing, since a forest with no adjacent river contributes 0 |
| Choices.InteriorChoicesMembers | game/game.go:217-262 | the interior list holds exactly the neighbours that pass all filters and are off the border |
| Choices.BorderChoicesMembers | game/game.go:217-262 | the border list holds exactly the neighbours that pass all filters and are on the border |
| Choices.Consider | game/game.go:265-270 | the consideration set has at most 4 tiles, all inside the grid |
| Choices.ConsiderMembers | game/game.go:265-270 | the consideration set is the admitted interior neighbours when there is one, else the admitted border neighbours |
| Choices.AdjacencyBonus | game/game.go:295-313 | the bonus counts (spot, path tile) adjacencies and so is at most spots × path length |
| Choices.NewForestCount | game/game.go:315-320 | the count of Empty in-range spots is at most the number of spots |
| Choices.ScoreMoves | game/game.go:285-323 | one scored move per choice, in the same order and for the same coordinate |
| Choices.InsertMove | game/game.go:326-342 | insertion keeps the moves sorted by the comparator and adds exactly the new move |
| Choices.SortMoves | game/game.go:326-342 | the order is a permutation of the moves with no move ranked before one that precedes it: bonus desc, then forest count desc, then turns before straights |
| Choices.OrderMoves | game/game.go:274-342 | the explored order holds exactly the considered tiles and is as long as the consideration set |
| Leaves.MarkRiver | game/game.go:202 | exactly the path's cells are River on the working grid; the rest are unchanged |
| Leaves.AdmissibleShape | game/game.go:185-352 | every path the search reaches starts at the start tile, has 1…maxLen distinct in-range originally Empty tiles, takes orthogonal steps, keeps the cross-adjacency rule when it is on, and takes a border step only when no interior step was admitted |
| Leaves.PrefixAdmissible | game/game.go:345-348 | every non-empty prefix of a reachable path is reachable |
| Leaves.NextStepConsidered | game/game.go:345-348 | each step of a reachable path was in the consideration set of the path before it |
| Leaves.LeafIsMaximal | game/game.go:361 | no reachable path extends an evaluated leaf |
| Leaves.AdmissibleLength | game/game.go:194-196 | the depth guard keeps every reachable path to between 1 and maxLen tiles |
| Leaves.LeafExists | game/game.go:361 | every reachable path leads to an evaluated leaf below it |
| Search.Poll | game/game.go:217-224 | the four in-loop polls see the stop exactly when it fires within them, and a fired stop stays fired |
| Search.Explore | game/game.go:185-381 | the call leaves the working grid as it found it, the stop only advances, and the callbacks only grow, each beating the best before it and the one before it |
| Search.Expand | game/game.go:206-352 | the expansion leaves the working grid as it found it and only improves the best |
| Search.ExploreMoves | game/game.go:345-348 | the children explored in order leave the grid as found and only improve the best |
| Search.Finish | game/game.go:354-380 | at most one callback is added, only for a leaf, carrying that leaf's profit and forest grid; unless stopped the best is at least that leaf's profit |
| Optimality.NothingBelowBlockedStart | game/game.go:194-201 | with maxLen below 1, an out-of-range start or a non-Empty start, the search reaches no path |
| Optimality.OnlyLeafBelowLeaf | game/game.go:361 | the only leaf extending a leaf is itself |
| Optimality.FinishCorrect | game/game.go:361-378 | a leaf's evaluation reports only that leaf, and unless stopped leaves a best at least its profit |
| Optimality.MovesCorrect | game/game.go:345-348 | exploring the children reports only leaves below the path, and unless stopped none of their leaves beats the best |
| Optimality.BranchCorrect | game/game.go:272-349 | a branching node reports only leaves below it, and unless stopped no leaf below it beats the best |
| Optimality.ExpandCorrect | game/game.go:206-380 | an expanded path reports only its own leaves, and unless stopped no leaf below it beats the best |
| Optimality.ExploreCorrect | game/game.go:185-381 | a recursive call reports only leaves below its path, and unless stopped it covers every leaf below it |
| Planner.FindOptimal | game/game.go:152-182 | the start-not-Empty error happens exactly for a non-Empty start, with the -1.0 solution and no callback; "no profitable path" returns the -1.0 solution; "stopped" only once the stop is visible and never without one |
| Planner.RootRun | game/game.go:168 | the top-level search reports only leaves below the start, and unless stopped covers them all |
| Planner.FoundIsBestLeaf | game/game.go:168-181 | a nil error returns a leaf no leaf beats, with a well-formed river, its forest grid and its profit, and it is the last solution handed to the callback |
| Planner.CallbacksImprove | game/game.go:363-376 | every callback solution is a scored leaf better than -1.0 and better than every earlier one |
| Planner.NoProfitOnlyWithoutRoom | game/game.go:177-179 | "no profitable path" happens only when maxLen < 1, and then always unless stopped |
| Lengths.Clamp | main.go:261-266 | the scrollbar's value lands in [5, 35], and values already inside are unchanged |
| Lengths.StepKeepsBounds | main.go:208-219 | every length event keeps the value in [5, 35], and a key moves it by at most one |
| Lengths.LengthAlwaysInBounds | main.go:29-31 | from any value in [5, 35], any sequence of events keeps it there |
| Lengths.PageKeysInverse | main.go:208-219 | PageDown undoes PageUp below the cap and PageUp undoes PageDown above the minimum; at the ends each key does nothing |
| Lengths.ClampIdempotent | main.go:343-348 | clamping twice is clamping once |
| Clicks.GoQuot | main.go:278 | Go's integer division truncates toward zero, bracketing the dividend from the side of zero |
| Clicks.ClickCellInsideTile | main.go:277-278 | any click within a tile's 32-pixel square selects that tile |
| Clicks.AboveTopRowMapsToRowZero | main.go:278 | truncation also sends the 31-pixel strip above the grid to row 0 |
| Clicks.RoadCellsUpTo | main.go:285-291 | the nested loop lists exactly the Road cells, in row-major order |
| Clicks.RoadCells | main.go:285-291 | the road list holds exactly the Road cells of the grid |
| Clicks.Without | main.go:368-375 | the remaining list drops exactly the clicked cell |
| Clicks.PlacedLayout | main.go:285-293 | the row-major road list plus the clicked cell lays out the old road set plus that cell |
| Clicks.RemovedLayout | main.go:368-376 | the row-major road list without the clicked cell lays out the old road set minus that cell |
| Clicks.PlaceRoadClick | main.go:282-297 | a click on an Empty or Forbidden in-range cell lays roads out for the old road set plus that cell and resets the shown solution; any other click changes nothing |
| Clicks.RemoveRoadClick | main.go:366-379 | the right button on a Road cell lays roads out for the old road set minus that cell and resets the shown solution; elsewhere nothing changes |
| Clicks.LayoutRoads | game/game.go:50-83 | the Road cells of a layout are exactly its road set |
| Clicks.NewGridNormal | game/game.go:41-47 | a fresh grid is the layout of its own (empty) road set |
| Clicks.ClicksKeepNormal | main.go:282-297 | both clicks keep the grid the layout of its own roads |
| Clicks.PlaceThenRemove | main.go:366-379 | removing a road just placed gives back the grid shown before the click |
| Worker.OutcomeOf | main.go:611-624 | a nil error counts as success and "search stopped by user" as a stop; every other error is neither |
| Worker.PerLengthBest | main.go:585-594 | the per-length best beats every callback or equals it, and is the initial -1.0 solution or the first callback reaching the top profit |
| Worker.ImprovingLastWins | main.go:588-594 | on strictly improving callbacks, the per-length best is the last one, or the initial solution when there is none |
| Worker.PlannerSearch | main.go:596-600 | the worker's search never invents or undoes a stop, and reports a stop only once it is visible |
| Worker.TestLength | main.go:584-600 | a length test reports its length, and a stop only when it is visible; with no stop pending it never stops |
| Worker.TestLengthFaithful | main.go:584-600 | a length test's report is faithful: "other error" exactly for a non-Empty start; on success its best is a best leaf of that length; any best is a scored leaf or "nothing found" |
| Worker.PlannerSearchFaithful | main.go:597-600 | FindOptimalRiverAndForests on the road layout is a faithful search for every length from 5 on |
| Worker.Absorb | main.go:611-636 | the worker takes a strictly better length best unless the error was neither success nor stop; the shared best changes exactly when the worker's beats it; the grid shown changes only then, and only to a valid solution's grid |
| Worker.LengthStep | main.go:565-644 | one pass exits before testing on a stop or stale id; otherwise it adds exactly one report for this length, absorbs it, and exits after it exactly when the length was stopped; a stale id after the test discards the result |
| Worker.LengthStepTests | main.go:584-600 | the report a pass adds is the length test run with the stop signal as seen after the pre-test poll |
| Worker.Sweep | main.go:565-645 | the reports added are for the lengths 5, 6, … in order, none above the user's maximum, and earlier reports are kept |
| Worker.SweepExits | main.go:565-645 | only the last report can be a stopped length, and then the worker exits for the stop |
| Worker.SweepCount | main.go:565-645 | a worker that finishes all lengths has one report per length |
| Worker.SweepSignals | main.go:565-645 | the stop and the new calculation are never undone; the worker exits for one only once it is visible; with neither it always finishes; a stale id from the start changes nothing |
| Worker.SweepFaithful | main.go:565-645 | every report of the sweep is faithful to its length's search |
| Worker.SweepOverall | main.go:611-620 | the worker's best is the first best among the successful or stopped lengths' bests, from -1.0 |
| Worker.SweepShared | main.go:626-636 | the shared best only rises, to the worker's best, and stays at least the worker's best; the shown grid changes only with it, to its grid when it is a valid solution |
| Worker.RunWorker | main.go:550-648 | the worker's best is the first strict best among the successful or stopped lengths' bests, starting from -1.0 on the road layout (so it is -1.0 or one of them), and the shared best is never below it |
| Worker.SweepBeatsEveryLength | main.go:565-645 | with no stop and an Empty start, every length is tried and the worker's best is at least the profit of every leaf of every length from 5 to the maximum |
| Worker.WorkerBeatsEveryLength | main.go:550-648 | an uninterrupted worker on an Empty start tests every length and ends with a best no river of any allowed length beats |
| Worker.ReportBeatsLeaf | main.go:611-620 | a best chosen over faithful unstopped reports beats every leaf of each reported length |
| Worker.CandidateOf | main.go:611-620 | every successful or stopped length's best is among the worker's candidates |
| Worker.CandidateFrom | main.go:611-620 | every candidate is the best of some successful or stopped length |
| Worker.Finalize | main.go:760-790 | an outdated master changes nothing; otherwise a nil path becomes the -1.0 road-layout solution with length 0, a found path is kept with its length, the shown grid is the final solution's grid, and the stop channel ends closed |
| Worker.FinalShowsWorkerBest | main.go:766-777 | when the worker's shared best has a path, the result screen shows its grid and records a used length between 1 and the user's maximum |
| Wrap.EffectiveCharWidth | ui.go:37-40 | the character width is positive: the measured width, or 7 when it measures 0 |
| Wrap.FeedAllGood | ui.go:42-59 | after any prefix the emitted lines and the current line hold exactly the non-newline characters in order, each line fits or is one character, there are at least as many emitted lines as newlines, and the current line is non-empty after a non-newline character |
| Wrap.NewlineEndsLine | ui.go:44-48 | a newline emits the line being filled, even an empty one, and the loop then continues exactly as on the rest of the input alone |
| Wrap.WrapLinesAtNewline | ui.go:42-62 | the lines of `a`, a newline and `b` are the lines emitted for `a`, the line the newline ended (possibly empty), then the lines of `b` |
| Wrap.WrapLinesShape | ui.go:31-64 | the lines spell the input without its newlines, none holds a newline, each fits the width or is a single character, there are at least as many lines as newlines, a last line not followed by a newline is non-empty, and empty input gives no lines |
| Wrap.WrapText | ui.go:31-64 | the loop computes the wrapper's lines, with the properties above |
| Wrap.SplitWhenAllFit | ui.go:42-59 | when every newline-separated segment fits, the loop breaks only at newlines |
| Wrap.SplitLines | ui.go:42-62 | when every segment fits, the lines are the input's segments, less an empty last one |
| Wrap.AsWrittenEmitsEmptyLine | ui.go:51-54 | as written, "ab" with 7-pixel characters and width 5 wraps to "", "a", "b" |
| Wrap.WrapTextCorrected | ui.go:51-54 | with the overflow test limited to non-empty lines, the loop keeps every property above and emits no empty line for input without newlines |
| Wrap.CorrectedNoEmptyLines | ui.go:51-54 | the corrected wrapper emits an empty line only for a newline |

## Left out

- Concurrency: the workers are goroutines; there is a mutex, a WaitGroup
  and a master goroutine per calculation. One worker's sweep is modelled
  as a sequential function. The shared best is an input and an output of
  that worker, so updates by the other workers in between are not modelled.
- Timing: the moment a stop or a new calculation becomes visible is the
  `Signal` parameter.
- Floating point: profits are exact integers in percent. The scrollbar's
  thumb-to-value conversion (main.go:258-259, 340-341) is a parameter
  `raw`; only the clamp after it is modelled.
- Rendering, the image-based road detection, `Grid.Print`, the
  status-text updates, the buttons and the logging are not modelled.
  They are I/O, or they do not affect the computed state.
- The font metric `text.BoundString` is the parameter `measured` of
  `Wrap.WrapText`. wrapText's unused `lineHeight` parameter is dropped.
  Characters are Unicode code points, as Go's range over a string yields
  runes; invalid UTF-8 is not modelled.
- The deferred `recover` in FindOptimalRiverAndForests (game/game.go:163-167)
  is not modelled; the model's search does not panic.
- Planner.FindOptimal: requires an in-range start. The source indexes the
  grid with it unchecked, and every caller passes a start from
  GetValidRiverStarts or an in-range click.
- Worker.RunWorker: requires the shared best to be at least -1.0, which
  every calculation starts with.
- Choices.SortMoves: `sort.Slice` is not specified as stable. Go's
  implementation sorts four or fewer elements by insertion sort, so the
  model uses a stable insertion sort. The order among moves that tie on
  every key is therefore a modelling choice.
- Go's `append` may share a backing array between `currentPath` slices.
  The model treats paths as values. The source copies the path before
  storing it in the best solution (game/game.go:370-371).
- The button handlers that start a calculation are not modelled. They
  reset the shared best to -1.0 on the road layout (main.go:744), launch
  the master goroutines (main.go:756, 859, 1001) and launch one worker per
  start (main.go:803, 915, 1057). Only the single-start master's
  finalisation block (main.go:760-790) is modelled. The all-starts
  masters' finalisation blocks are of the same shape.

## Findings

| source | as written | input that shows it | evidently intended | confidence | as-written member | corrected member |
|---|---|---|---|---|---|---|
| ui.go:51-54 | a character that would overflow breaks the line even when the current line is still empty, so an empty line is emitted | "ab" with character width 7 and maxWidth 5 gives "", "a", "b" | break only a non-empty line; a character wider than the panel sits alone on its line | low, not executed; the panel's call sites pass a width far above one character, so it shows only for a width below one character | Wrap.AsWrittenEmitsEmptyLine | Wrap.WrapTextCorrected |
