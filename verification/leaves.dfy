/** The search tree, defined independently of the recursive search: which
    partial rivers the continuation rules admit, which of them are leaves
    (the paths that get evaluated), and what a leaf scores. */
module Leaves {
  import opened Board
  import opened Forests
  import opened Choices

  /** The input grid with every (in-range) tile of `p` marked River: the
      working grid while `p` is the current path. */
  function MarkRiver(g: Grid, p: seq<Coord>): (r: Grid)
    ensures forall c | InRange(c) :: At(r, c) == if c in p then River else At(g, c)
    decreases |p|
  {
    if |p| == 0 then g
    else
      var q := p[..|p| - 1];
      var t := p[|p| - 1];
      assert p == q + [t];
      var m := MarkRiver(g, q);
      if InRange(t) then Update(m, t, River) else m
  }

  /** `p` is a path the continuation rules reach from `start`: its first tile
      is the Empty start, and each later tile is in the consideration set of
      the prefix before it, with at most maxLen tiles in all. */
  predicate Admissible(ps: SearchParams, g0: Grid, start: Coord, p: seq<Coord>)
    decreases |p|
  {
    if |p| == 0 then false
    else if |p| == 1 then
      p[0] == start && InRange(start) && At(g0, start) == Empty && 1 <= ps.maxLen
    else
      var q := p[..|p| - 1];
      Admissible(ps, g0, start, q) && |p| <= ps.maxLen
        && p[|p| - 1] in Consider(ps, MarkRiver(g0, q), q)
  }

  /** A leaf: an admissible path of length maxLen, or one whose last tile
      has no admissible continuation. */
  predicate Leaf(ps: SearchParams, g0: Grid, start: Coord, p: seq<Coord>) {
    Admissible(ps, g0, start, p)
      && (|p| == ps.maxLen || |Consider(ps, MarkRiver(g0, p), p)| == 0)
  }

  /** The grid a leaf is reported with: river marked, forests placed. */
  function LeafGrid(g0: Grid, p: seq<Coord>): Grid {
    PlaceForests(MarkRiver(g0, p), p)
  }

  function LeafProfit(g0: Grid, p: seq<Coord>): int {
    ForestProfit(LeafGrid(g0, p))
  }

  /** The shape every reported river has. */
  predicate IsRiverPath(ps: SearchParams, g0: Grid, start: Coord, p: seq<Coord>) {
    && 1 <= |p| <= ps.maxLen
    && p[0] == start
    && (forall i | 0 <= i < |p| :: InRange(p[i]) && At(g0, p[i]) == Empty)
    && (forall i | 0 < i < |p| :: Adjacent(p[i - 1], p[i]))
    && Distinct(p)
    && (ps.noCrossAdjacency ==> forall i, j | 0 <= j < i - 1 && i < |p| :: !Adjacent(p[j], p[i]))
  }

  /** Every border step was taken only because no interior step was
      admitted at that point. */
  predicate BorderOnlyWhenForced(ps: SearchParams, g0: Grid, p: seq<Coord>) {
    forall i | 0 < i < |p| ::
      IsBorder(p[i]) ==> !HasInteriorChoice(ps, MarkRiver(g0, p[..i]), p[..i])
  }

  lemma AdjacentSymmetric(a: Coord, b: Coord)
    ensures Adjacent(a, b) <==> Adjacent(b, a)
  {
  }

  /** Admissible paths have the river shape. */
  lemma {:induction false} AdmissibleShape(ps: SearchParams, g0: Grid, start: Coord, p: seq<Coord>)
    requires Admissible(ps, g0, start, p)
    ensures IsRiverPath(ps, g0, start, p)
    ensures BorderOnlyWhenForced(ps, g0, p)
    decreases |p|
  {
    if |p| > 1 {
      var q := p[..|p| - 1];
      var t := p[|p| - 1];
      assert p == q + [t];
      AdmissibleShape(ps, g0, start, q);
      ShapeStep(ps, g0, start, q, t);
    }
  }

  /** Extending a river-shaped path by a tile of its consideration set
      keeps the shape. */
  lemma ShapeStep(ps: SearchParams, g0: Grid, start: Coord, q: seq<Coord>, t: Coord)
    requires IsRiverPath(ps, g0, start, q) && BorderOnlyWhenForced(ps, g0, q)
    requires |q| + 1 <= ps.maxLen
    requires t in Consider(ps, MarkRiver(g0, q), q)
    ensures IsRiverPath(ps, g0, start, q + [t])
    ensures BorderOnlyWhenForced(ps, g0, q + [t])
  {
    var m := MarkRiver(g0, q);
    ConsiderMembers(ps, m, q);
    assert Admits(ps, m, q, t);
    assert t in Neighbors(q[|q| - 1]);
    StepInRange(g0, q, t);
    StepAdjacent(q, t);
    StepDistinct(q, t);
    if ps.noCrossAdjacency {
      StepNoCross(ps, g0, start, q, t);
    }
    StepForced(ps, g0, q, t);
  }

  lemma StepInRange(g0: Grid, q: seq<Coord>, t: Coord)
    requires forall i | 0 <= i < |q| :: InRange(q[i]) && At(g0, q[i]) == Empty
    requires InRange(t) && At(MarkRiver(g0, q), t) == Empty
    ensures t !in q
    ensures forall i | 0 <= i < |q + [t]| :: InRange((q + [t])[i]) && At(g0, (q + [t])[i]) == Empty
  {
  }

  lemma StepForced(ps: SearchParams, g0: Grid, q: seq<Coord>, t: Coord)
    requires |q| > 0 && BorderOnlyWhenForced(ps, g0, q)
    requires t in Consider(ps, MarkRiver(g0, q), q)
    ensures BorderOnlyWhenForced(ps, g0, q + [t])
  {
    var p := q + [t];
    forall i | 0 < i < |p| && IsBorder(p[i])
      ensures !HasInteriorChoice(ps, MarkRiver(g0, p[..i]), p[..i])
    {
      if i == |p| - 1 {
        assert p[..i] == q;
        ConsiderMembers(ps, MarkRiver(g0, q), q);
      } else {
        assert p[..i] == q[..i] && p[i] == q[i];
      }
    }
  }

  lemma StepAdjacent(q: seq<Coord>, t: Coord)
    requires forall i | 0 < i < |q| :: Adjacent(q[i - 1], q[i])
    requires |q| > 0 && Adjacent(q[|q| - 1], t)
    ensures forall i | 0 < i < |q + [t]| :: Adjacent((q + [t])[i - 1], (q + [t])[i])
  {
  }

  lemma StepDistinct(q: seq<Coord>, t: Coord)
    requires Distinct(q) && t !in q
    ensures Distinct(q + [t])
  {
    var p := q + [t];
    forall i, j | 0 <= i < j < |p|
      ensures p[i] != p[j]
    {
      if j == |q| {
        assert p[i] == q[i];
      } else {
        assert p[i] == q[i] && p[j] == q[j];
      }
    }
  }

  lemma StepNoCross(ps: SearchParams, g0: Grid, start: Coord, q: seq<Coord>, t: Coord)
    requires ps.noCrossAdjacency
    requires IsRiverPath(ps, g0, start, q)
    requires |q| > 0 && Admits(ps, MarkRiver(g0, q), q, t)
    ensures forall i, j | 0 <= j < i - 1 && i < |q + [t]| :: !Adjacent((q + [t])[j], (q + [t])[i])
  {
    var p := q + [t];
    var m := MarkRiver(g0, q);
    forall i, j | 0 <= j < i - 1 && i < |p|
      ensures !Adjacent(p[j], p[i])
    {
      if i == |p| - 1 {
        assert p[j] == q[j] && p[i] == t;
      } else {
        assert p[j] == q[j] && p[i] == q[i];
      }
    }
  }

  /** Every non-empty prefix of an admissible path is admissible. */
  lemma {:induction false} PrefixAdmissible(ps: SearchParams, g0: Grid, start: Coord, p: seq<Coord>, k: int)
    requires Admissible(ps, g0, start, p)
    requires 1 <= k <= |p|
    ensures Admissible(ps, g0, start, p[..k])
    decreases |p|
  {
    if k < |p| {
      var q := p[..|p| - 1];
      assert p == q + [p[|p| - 1]];
      AdmissibleSplit(ps, g0, start, p, q, p[|p| - 1]);
      PrefixAdmissible(ps, g0, start, q, k);
      assert q[..k] == p[..k];
    } else {
      assert p[..k] == p;
    }
  }

  /** Leaves are maximal: no admissible path strictly extends one. */
  lemma LeafIsMaximal(ps: SearchParams, g0: Grid, start: Coord, p: seq<Coord>, q: seq<Coord>)
    requires Leaf(ps, g0, start, p)
    requires |q| > |p| && q[..|p|] == p
    ensures !Admissible(ps, g0, start, q)
  {
    if Admissible(ps, g0, start, q) {
      NextStepConsidered(ps, g0, start, q, |p|);
    }
  }

  /** In an admissible path, the tile after any prefix was in that prefix's
      consideration set. */
  lemma {:induction false} NextStepConsidered(ps: SearchParams, g0: Grid, start: Coord, q: seq<Coord>, k: int)
    requires Admissible(ps, g0, start, q)
    requires 1 <= k < |q|
    ensures k + 1 <= ps.maxLen
    ensures q[k] in Consider(ps, MarkRiver(g0, q[..k]), q[..k])
    decreases |q|
  {
    var init := q[..|q| - 1];
    assert q == init + [q[|q| - 1]];
    AdmissibleSplit(ps, g0, start, q, init, q[|q| - 1]);
    if k < |q| - 1 {
      NextStepConsidered(ps, g0, start, init, k);
      assert init[..k] == q[..k] && init[k] == q[k];
    } else {
      assert q[..k] == init;
    }
  }


  /** The unfolding of Admissible at its last step, with the path given as
      its prefix and last tile. */
  lemma AdmissibleSplit(ps: SearchParams, g0: Grid, start: Coord, p: seq<Coord>, pre: seq<Coord>, t: Coord)
    requires Admissible(ps, g0, start, p) && p == pre + [t] && |pre| > 0
    ensures |p| <= ps.maxLen && Admissible(ps, g0, start, pre)
    ensures t in Consider(ps, MarkRiver(g0, pre), pre)
  {
    assert p[..|p| - 1] == pre;
  }


  /** The unfolding of Admissible at its last step. */
  lemma AdmissibleLast(ps: SearchParams, g0: Grid, start: Coord, p: seq<Coord>)
    requires Admissible(ps, g0, start, p) && |p| > 1
    ensures |p| <= ps.maxLen
    ensures p[|p| - 1] in Consider(ps, MarkRiver(g0, p[..|p| - 1]), p[..|p| - 1])
  {
  }

  lemma {:induction false} AdmissibleLength(ps: SearchParams, g0: Grid, start: Coord, p: seq<Coord>)
    requires Admissible(ps, g0, start, p)
    ensures 1 <= |p| <= ps.maxLen
  {
  }

  /** Every admissible path extends to a leaf. */
  lemma {:induction false} LeafExists(ps: SearchParams, g0: Grid, start: Coord, p: seq<Coord>)
      returns (leaf: seq<Coord>)
    requires Admissible(ps, g0, start, p)
    ensures Leaf(ps, g0, start, leaf) && |leaf| >= |p| && leaf[..|p|] == p
    decreases ps.maxLen - |p|
  {
    AdmissibleLength(ps, g0, start, p);
    var next := Consider(ps, MarkRiver(g0, p), p);
    if |p| == ps.maxLen || |next| == 0 {
      leaf := p;
    } else {
      var p' := p + [next[0]];
      AdmissibleStep(ps, g0, start, p, next[0]);
      leaf := LeafExists(ps, g0, start, p');
      assert leaf[..|p|] == leaf[..|p'|][..|p|];
    }
  }

  /** A considered tile extends a reachable path below the bound. */
  lemma AdmissibleStep(ps: SearchParams, g0: Grid, start: Coord, p: seq<Coord>, t: Coord)
    requires Admissible(ps, g0, start, p) && |p| < ps.maxLen
    requires t in Consider(ps, MarkRiver(g0, p), p)
    ensures Admissible(ps, g0, start, p + [t])
  {
    assert (p + [t])[..|p|] == p;
  }
}
