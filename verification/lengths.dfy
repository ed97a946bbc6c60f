/** The adjustable maximum river length (main.go:29-31): the keys, the
    scrollbar and the full reset, and the bound they keep. */
module Lengths {

  const MinRiverLength := 5
  const MaxRiverLengthCap := 35
  const DefaultInitialRiverLength := 35

  predicate InBounds(v: int) {
    MinRiverLength <= v <= MaxRiverLengthCap
  }

  /** What can change the maximum length. The scrollbar's thumb-to-value
      conversion is floating point; `raw` is the integer it produces before
      the clamp. A drag on a track of width zero or less changes nothing
      (`trackOk` false). */
  datatype LengthEvent =
    | PageUp
    | PageDown
    | TrackClick(raw: int)
    | Drag(trackOk: bool, raw: int)
    | FullReset

  /** The scrollbar's clamp of a computed value into [5, 35]. */
  function Clamp(v: int): (r: int)
    ensures InBounds(r)
    ensures InBounds(v) ==> r == v
    ensures v < MinRiverLength ==> r == MinRiverLength
    ensures v > MaxRiverLengthCap ==> r == MaxRiverLengthCap
  {
    if v < MinRiverLength then MinRiverLength
    else if v > MaxRiverLengthCap then MaxRiverLengthCap
    else v
  }

  /** One event applied to the current maximum length. */
  function StepLength(cur: int, e: LengthEvent): int {
    match e
    case PageUp => if cur < MaxRiverLengthCap then cur + 1 else cur
    case PageDown => if cur > MinRiverLength then cur - 1 else cur
    case TrackClick(raw) => Clamp(raw)
    case Drag(trackOk, raw) => if trackOk then Clamp(raw) else cur
    case FullReset => DefaultInitialRiverLength
  }

  function ApplyLengths(cur: int, es: seq<LengthEvent>): int
    decreases |es|
  {
    if |es| == 0 then cur else ApplyLengths(StepLength(cur, es[0]), es[1..])
  }

  /** Every event keeps the value in [5, 35], and moves it by at most one
      unless it comes from the scrollbar or a reset. */
  lemma StepKeepsBounds(cur: int, e: LengthEvent)
    requires InBounds(cur)
    ensures InBounds(StepLength(cur, e))
    ensures e.PageUp? || e.PageDown? ==> -1 <= StepLength(cur, e) - cur <= 1
  {
  }

  /** From any value in [5, 35] (the initial 35 among them), every
      sequence of events keeps the value in [5, 35]. */
  lemma {:induction false} LengthAlwaysInBounds(cur: int, es: seq<LengthEvent>)
    requires InBounds(cur)
    ensures InBounds(ApplyLengths(cur, es))
    decreases |es|
  {
    if |es| > 0 {
      StepKeepsBounds(cur, es[0]);
      LengthAlwaysInBounds(StepLength(cur, es[0]), es[1..]);
    }
  }

  /** PageDown undoes PageUp below the cap, and PageUp undoes PageDown above
      the minimum; at the ends each key does nothing. */
  lemma PageKeysInverse(cur: int)
    requires InBounds(cur)
    ensures cur < MaxRiverLengthCap ==> StepLength(StepLength(cur, PageUp), PageDown) == cur
    ensures cur > MinRiverLength ==> StepLength(StepLength(cur, PageDown), PageUp) == cur
    ensures cur == MaxRiverLengthCap ==> StepLength(cur, PageUp) == cur
    ensures cur == MinRiverLength ==> StepLength(cur, PageDown) == cur
  {
  }

  /** Clamping twice is clamping once. */
  lemma ClampIdempotent(v: int)
    ensures Clamp(Clamp(v)) == Clamp(v)
  {
  }
}
